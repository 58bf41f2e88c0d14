/**
 * A block sent in compact form, from the sender's block to the receiver's: which transactions the receiver takes from
 * its own, whatever they are, and when the list it ends up with is the block.
 */
module CompactExchange {
  import opened Wrappers
  import opened CompactBlocks

  // ---------------------------------------------------------------- which transactions end up in the slots

  /** Those of the first n transactions that have an identifier, in order. */
  ghost function Matches(txs: seq<Tx>, n: nat, shortId: nat -> nat, id: nat): (r: seq<Tx>)
    requires n <= |txs|
  {
    if n == 0 then []
    else Matches(txs, n - 1, shortId, id) + if shortId(txs[n - 1].hash) == id then [txs[n - 1]] else []
  }

  /**
   * What a slot holds, from the matches of the mempool and of the extra transactions: the first match, unless the
   * mempool has two or one of the others has another hash.
   */
  ghost function Held(fromPool: seq<Tx>, fromExtra: seq<Tx>): Option<Tx> {
    var all := fromPool + fromExtra;
    if |fromPool| <= 1 && all != [] && Agree(all) then Some(all[0]) else None
  }

  ghost predicate Agree(txs: seq<Tx>)
    requires txs != []
  {
    forall i :: 0 <= i < |txs| ==> txs[i].hash == txs[0].hash
  }

  /** The transactions at hand, as far as they have been looked at. */
  datatype Hand = Hand(pool: seq<Tx>, n: nat, extra: seq<Tx>, e: nat)
  {
    ghost predicate Ok() { n <= |pool| && e <= |extra| }
  }

  ghost function HeldFor(h: Hand, shortId: nat -> nat, id: nat): Option<Tx>
    requires h.Ok()
  {
    Held(Matches(h.pool, h.n, shortId, id), Matches(h.extra, h.e, shortId, id))
  }

  ghost predicate AllHeld(h: Hand, shortId: nat -> nat, ids: seq<nat>)
    requires h.Ok()
  {
    forall k :: 0 <= k < |ids| ==> HeldFor(h, shortId, ids[k]).Some?
  }

  /** Where a scan that starts at i stops: after the first transaction that leaves it full, or at the end. */
  ghost function Stop(full: nat -> bool, i: nat, n: nat): (k: nat)
    requires i <= n
    ensures i <= k <= n
    decreases n - i
  {
    if i == n then i else if full(i + 1) then i + 1 else Stop(full, i + 1, n)
  }

  /** No slot is empty after the first n transactions of the mempool, or after e of the extra ones too. */
  ghost predicate FullAt(h: Hand, shortId: nat -> nat, ids: seq<nat>) { h.Ok() && AllHeld(h, shortId, ids) }

  ghost function PoolFull(pool: seq<Tx>, shortId: nat -> nat, ids: seq<nat>): nat -> bool {
    (n: nat) => FullAt(Hand(pool, n, [], 0), shortId, ids)
  }

  ghost function ExtraFull(pool: seq<Tx>, n: nat, extra: seq<Tx>, shortId: nat -> nat, ids: seq<nat>): nat -> bool {
    (e: nat) => FullAt(Hand(pool, n, extra, e), shortId, ids)
  }

  /** The transactions that are looked at: each list up to the first after which no slot is empty. */
  ghost function LookedAt(pool: seq<Tx>, extra: seq<Tx>, shortId: nat -> nat, ids: seq<nat>): (h: Hand)
    ensures h.Ok()
  {
    var n := Stop(PoolFull(pool, shortId, ids), 0, |pool|);
    Hand(pool, n, extra, Stop(ExtraFull(pool, n, extra, shortId, ids), 0, |extra|))
  }

  /** A slot shows what its matches so far make of it. */
  ghost predicate ShowsAt(f: Fill, q: nat, a: seq<Tx>, b: seq<Tx>) {
    q < |f.avail| == |f.have| && f.avail[q] == Held(a, b) && (f.have[q] <==> a + b != [])
  }

  ghost predicate SlotShows(f: Fill, p: Plan, h: Hand, k: nat)
    requires h.Ok() && k < |p.ids| <= |p.slots|
  {
    ShowsAt(f, p.slots[k], Matches(h.pool, h.n, p.shortId, p.ids[k]), Matches(h.extra, h.e, p.shortId, p.ids[k]))
  }

  /** The counter counts the filled slots. */
  ghost predicate Counted(f: Fill, p: Plan)
    requires p.Ok()
  {
    |f.avail| == |f.have| == |p.base| && f.mempoolCount == Filled(f.avail, p.slots, |p.ids|)
  }

  ghost predicate Shows(f: Fill, p: Plan, h: Hand) {
    && p.Ok() && h.Ok() && Counted(f, p) && forall k :: 0 <= k < |p.ids| ==> SlotShows(f, p, h, k)
  }

  lemma {:induction false} MempoolMatch(a: seq<Tx>, t: Tx)
    ensures Held(a + [t], []) == if a == [] then Some(t) else None
  {
    assert a + [t] + [] == a + [t];
  }

  lemma {:induction false} ExtraMatch(a: seq<Tx>, b: seq<Tx>, t: Tx)
    ensures Held(a, b + [t]) ==
      if a + b == [] then Some(t)
      else if Held(a, b).Some? && Held(a, b).value.hash != t.hash then None else Held(a, b)
  {
    var all, all' := a + b, a + (b + [t]);
    assert all' == all + [t];
    if all != [] {
      assert all'[0] == all[0] && all'[|all|] == t;
      assert Agree(all') <==> Agree(all) && t.hash == all[0].hash by {
        if Agree(all') { forall i | 0 <= i < |all| ensures all[i].hash == all[0].hash { assert all'[i] == all[i]; } }
      }
    }
  }

  lemma {:induction false} TakeMempoolShows(f: Fill, q: nat, a: seq<Tx>, t: Tx)
    requires ShowsAt(f, q, a, [])
    ensures ShowsAt(TakeMempool(f, q, t), q, a + [t], [])
  {
    MempoolMatch(a, t);
    assert a + [] == a && a + [t] + [] == a + [t];
  }

  lemma {:induction false} TakeExtraShows(f: Fill, q: nat, a: seq<Tx>, b: seq<Tx>, t: Tx)
    requires ShowsAt(f, q, a, b)
    ensures ShowsAt(TakeExtra(f, q, t), q, a, b + [t])
  {
    ExtraMatch(a, b, t);
    assert a + (b + [t]) == (a + b) + [t];
  }

  /** A transaction changes the slot of its identifier only. */
  lemma {:induction false} OneSlotChanges(f: Fill, m: map<nat, nat>, t: Tx, shortId: nat -> nat, id: nat, q: nat)
    requires InRange(f, m) && OnlyId(m, id, q)
    ensures var g, g' := WithMempool(f, m, t, shortId), WithExtra(f, m, t, shortId);
      && |g.avail| == |g'.avail| == |f.avail|
      && (shortId(t.hash) == id ==> g == TakeMempool(f, q, t) && g' == TakeExtra(f, q, t))
      && (shortId(t.hash) != id ==>
           g.avail[q] == g'.avail[q] == f.avail[q] && g.have[q] == g'.have[q] == f.have[q])
  {}

  lemma {:induction false} MempoolSlotShows(f: Fill, p: Plan, m: map<nat, nat>, h: Hand, h': Hand, k: nat)
    requires h.Ok() && h.e == 0 && h.n < |h.pool| && h' == h.(n := h.n + 1) && k < |p.ids| <= |p.slots|
    requires InRange(f, m) && OnlyId(m, p.ids[k], p.slots[k]) && SlotShows(f, p, h, k)
    ensures SlotShows(WithMempool(f, m, h.pool[h.n], p.shortId), p, h', k)
  {
    var t, id, q := h.pool[h.n], p.ids[k], p.slots[k];
    OneSlotChanges(f, m, t, p.shortId, id, q);
    if p.shortId(t.hash) == id { TakeMempoolShows(f, q, Matches(h.pool, h.n, p.shortId, id), t); }
  }

  lemma {:induction false} ExtraSlotShows(f: Fill, p: Plan, m: map<nat, nat>, h: Hand, h': Hand, k: nat)
    requires h.Ok() && h.e < |h.extra| && h' == h.(e := h.e + 1) && k < |p.ids| <= |p.slots|
    requires InRange(f, m) && OnlyId(m, p.ids[k], p.slots[k]) && SlotShows(f, p, h, k)
    ensures SlotShows(WithExtra(f, m, h.extra[h.e], p.shortId), p, h', k)
  {
    var t, id, q := h.extra[h.e], p.ids[k], p.slots[k];
    OneSlotChanges(f, m, t, p.shortId, id, q);
    if p.shortId(t.hash) == id {
      TakeExtraShows(f, q, Matches(h.pool, h.n, p.shortId, id), Matches(h.extra, h.e, p.shortId, id), t);
    } else {
      assert Matches(h.extra, h.e + 1, p.shortId, id) == Matches(h.extra, h.e, p.shortId, id);
    }
  }

  lemma {:induction false} TakeCounts(f: Fill, p: Plan, h: Hand, k: nat, t: Tx)
    requires p.Ok() && h.Ok() && Counted(f, p) && k < |p.ids| && SlotShows(f, p, h, k)
    ensures Counted(TakeMempool(f, p.slots[k], t), p) && Counted(TakeExtra(f, p.slots[k], t), p)
  {
    FilledAfter(f.avail, p.slots, k, Some(t), |p.ids|);
    FilledAfter(f.avail, p.slots, k, None, |p.ids|);
  }

  lemma {:induction false} WithCounts(f: Fill, p: Plan, m: map<nat, nat>, h: Hand, t: Tx)
    requires Shows(f, p, h) && MappedWell(m, p.ids, p.slots, |p.ids|) && InRange(f, m)
    ensures Counted(WithMempool(f, m, t, p.shortId), p) && Counted(WithExtra(f, m, t, p.shortId), p)
  {
    var id := p.shortId(t.hash);
    if id in m {
      var k := SlotFor(m, p, id);
      TakeCounts(f, p, h, k, t);
    }
  }

  /** One transaction of the mempool. */
  lemma {:induction false} MempoolShows(f: Fill, p: Plan, m: map<nat, nat>, h: Hand, h': Hand)
    requires Shows(f, p, h) && h.e == 0 && h.n < |h.pool| && h' == h.(n := h.n + 1)
    requires MappedWell(m, p.ids, p.slots, |p.ids|) && InRange(f, m)
    ensures Shows(WithMempool(f, m, h.pool[h.n], p.shortId), p, h')
  {
    var t := h.pool[h.n];
    var g := WithMempool(f, m, t, p.shortId);
    WithCounts(f, p, m, h, t);
    forall k | 0 <= k < |p.ids| ensures SlotShows(g, p, h', k) {
      OnlyIdFor(p, m, k);
      MempoolSlotShows(f, p, m, h, h', k);
    }
  }

  /** One of the extra transactions. */
  lemma {:induction false} ExtraShows(f: Fill, p: Plan, m: map<nat, nat>, h: Hand, h': Hand)
    requires Shows(f, p, h) && h.e < |h.extra| && h' == h.(e := h.e + 1)
    requires MappedWell(m, p.ids, p.slots, |p.ids|) && InRange(f, m)
    ensures Shows(WithExtra(f, m, h.extra[h.e], p.shortId), p, h')
  {
    var t := h.extra[h.e];
    var g := WithExtra(f, m, t, p.shortId);
    WithCounts(f, p, m, h, t);
    forall k | 0 <= k < |p.ids| ensures SlotShows(g, p, h', k) {
      OnlyIdFor(p, m, k);
      ExtraSlotShows(f, p, m, h, h', k);
    }
  }

  lemma {:induction false} FilledIsAll(a: Slots, slots: seq<nat>, n: nat)
    requires n <= |slots| && forall k :: 0 <= k < |slots| ==> slots[k] < |a|
    ensures Filled(a, slots, n) == n <==> forall k :: 0 <= k < n ==> a[slots[k]].Some?
  {
    if n > 0 { FilledIsAll(a, slots, n - 1); }
  }

  /** The counter says whether a slot is empty. */
  lemma {:induction false} FullIsAllHeld(f: Fill, p: Plan, h: Hand)
    requires Shows(f, p, h)
    ensures f.mempoolCount == |p.ids| <==> AllHeld(h, p.shortId, p.ids)
  {
    FilledIsAll(f.avail, p.slots, |p.ids|);
    forall k | 0 <= k < |p.ids| ensures f.avail[p.slots[k]] == HeldFor(h, p.shortId, p.ids[k]) {
      assert SlotShows(f, p, h, k);
    }
  }

  // ---------------------------------------------------------------- where the loops stop

  /** What holds after a turn, and whether the loop stops there. */
  ghost predicate After(g: Fill, m: map<nat, nat>, j: nat, kept: (nat, Fill) -> bool, full: nat -> bool) {
    kept(j, g) && (g.mempoolCount == |m| <==> full(j))
  }

  ghost predicate MempoolKeeps(m: map<nat, nat>, pool: seq<Tx>, shortId: nat -> nat, kept: (nat, Fill) -> bool,
                               full: nat -> bool)
  {
    forall j: nat, g: Fill {:trigger WithMempool(g, m, pool[j], shortId)} ::
      kept(j, g) && j < |pool| && InRange(g, m) ==> After(WithMempool(g, m, pool[j], shortId), m, j + 1, kept, full)
  }

  ghost predicate ExtraKeeps(m: map<nat, nat>, extra: seq<Tx>, shortId: nat -> nat, kept: (nat, Fill) -> bool,
                             full: nat -> bool)
  {
    forall j: nat, g: Fill {:trigger WithExtra(g, m, extra[j], shortId)} ::
      kept(j, g) && j < |extra| && InRange(g, m) ==> After(WithExtra(g, m, extra[j], shortId), m, j + 1, kept, full)
  }

  /** What every turn keeps, a loop keeps up to where it stops. */
  lemma {:induction false} MempoolInduction(f: Fill, m: map<nat, nat>, pool: seq<Tx>, i: nat, shortId: nat -> nat,
                                            kept: (nat, Fill) -> bool, full: nat -> bool)
    requires InRange(f, m) && i <= |pool| && kept(i, f) && MempoolKeeps(m, pool, shortId, kept, full)
    ensures kept(Stop(full, i, |pool|), MempoolLoop(f, m, pool, i, shortId))
    decreases |pool| - i
  {
    if i < |pool| {
      var g := WithMempool(f, m, pool[i], shortId);
      assert After(g, m, i + 1, kept, full);
      if g.mempoolCount != |m| { MempoolInduction(g, m, pool, i + 1, shortId, kept, full); }
    }
  }

  lemma {:induction false} ExtraInduction(f: Fill, m: map<nat, nat>, extra: seq<Tx>, i: nat, shortId: nat -> nat,
                                          kept: (nat, Fill) -> bool, full: nat -> bool)
    requires InRange(f, m) && i <= |extra| && kept(i, f) && ExtraKeeps(m, extra, shortId, kept, full)
    ensures kept(Stop(full, i, |extra|), ExtraLoop(f, m, extra, i, shortId))
    decreases |extra| - i
  {
    if i < |extra| {
      var g := WithExtra(f, m, extra[i], shortId);
      assert After(g, m, i + 1, kept, full);
      if g.mempoolCount != |m| { ExtraInduction(g, m, extra, i + 1, shortId, kept, full); }
    }
  }

  lemma {:induction false} MempoolTurnShows(f: Fill, p: Plan, m: map<nat, nat>, h: Hand, h': Hand)
    requires Shows(f, p, h) && h.e == 0 && h.n < |h.pool| && h' == h.(n := h.n + 1)
    requires MappedWell(m, p.ids, p.slots, |p.ids|) && InRange(f, m)
    ensures var g := WithMempool(f, m, h.pool[h.n], p.shortId);
      Shows(g, p, h') && (g.mempoolCount == |m| <==> FullAt(h', p.shortId, p.ids))
  {
    MempoolShows(f, p, m, h, h');
    FullIsAllHeld(WithMempool(f, m, h.pool[h.n], p.shortId), p, h');
  }

  lemma {:induction false} ExtraTurnShows(f: Fill, p: Plan, m: map<nat, nat>, h: Hand, h': Hand)
    requires Shows(f, p, h) && h.e < |h.extra| && h' == h.(e := h.e + 1)
    requires MappedWell(m, p.ids, p.slots, |p.ids|) && InRange(f, m)
    ensures var g := WithExtra(f, m, h.extra[h.e], p.shortId);
      Shows(g, p, h') && (g.mempoolCount == |m| <==> FullAt(h', p.shortId, p.ids))
  {
    ExtraShows(f, p, m, h, h');
    FullIsAllHeld(WithExtra(f, m, h.extra[h.e], p.shortId), p, h');
  }

  ghost function PoolShows(p: Plan, pool: seq<Tx>): (nat, Fill) -> bool {
    (n: nat, g: Fill) => Shows(g, p, Hand(pool, n, [], 0))
  }

  ghost function ExtraShowing(p: Plan, pool: seq<Tx>, n: nat, extra: seq<Tx>): (nat, Fill) -> bool {
    (e: nat, g: Fill) => Shows(g, p, Hand(pool, n, extra, e))
  }

  lemma {:induction false} PoolAfter(g: Fill, p: Plan, m: map<nat, nat>, pool: seq<Tx>, n: nat)
    requires Shows(g, p, Hand(pool, n, [], 0))
    requires g.mempoolCount == |m| <==> FullAt(Hand(pool, n, [], 0), p.shortId, p.ids)
    ensures After(g, m, n, PoolShows(p, pool), PoolFull(pool, p.shortId, p.ids))
  {}

  lemma {:induction false} ExtraAfter(g: Fill, p: Plan, m: map<nat, nat>, pool: seq<Tx>, n: nat, extra: seq<Tx>, e: nat)
    requires Shows(g, p, Hand(pool, n, extra, e))
    requires g.mempoolCount == |m| <==> FullAt(Hand(pool, n, extra, e), p.shortId, p.ids)
    ensures After(g, m, e, ExtraShowing(p, pool, n, extra), ExtraFull(pool, n, extra, p.shortId, p.ids))
  {}

  lemma {:induction false} MempoolTurnAfter(g: Fill, p: Plan, m: map<nat, nat>, pool: seq<Tx>, j: nat)
    requires PoolShows(p, pool)(j, g) && j < |pool| && MappedWell(m, p.ids, p.slots, |p.ids|) && InRange(g, m)
    ensures After(WithMempool(g, m, pool[j], p.shortId), m, j + 1, PoolShows(p, pool), PoolFull(pool, p.shortId, p.ids))
  {
    MempoolTurnShows(g, p, m, Hand(pool, j, [], 0), Hand(pool, j + 1, [], 0));
    PoolAfter(WithMempool(g, m, pool[j], p.shortId), p, m, pool, j + 1);
  }

  lemma {:induction false} ExtraTurnAfter(g: Fill, p: Plan, m: map<nat, nat>, pool: seq<Tx>, n: nat, extra: seq<Tx>,
                                          j: nat)
    requires ExtraShowing(p, pool, n, extra)(j, g) && j < |extra|
    requires MappedWell(m, p.ids, p.slots, |p.ids|) && InRange(g, m)
    ensures After(WithExtra(g, m, extra[j], p.shortId), m, j + 1, ExtraShowing(p, pool, n, extra),
                  ExtraFull(pool, n, extra, p.shortId, p.ids))
  {
    ExtraTurnShows(g, p, m, Hand(pool, n, extra, j), Hand(pool, n, extra, j + 1));
    ExtraAfter(WithExtra(g, m, extra[j], p.shortId), p, m, pool, n, extra, j + 1);
  }

  lemma {:induction false} MempoolLoopShows(f: Fill, p: Plan, m: map<nat, nat>, pool: seq<Tx>)
    requires PoolShows(p, pool)(0, f) && MappedWell(m, p.ids, p.slots, |p.ids|) && InRange(f, m)
    ensures PoolShows(p, pool)(Stop(PoolFull(pool, p.shortId, p.ids), 0, |pool|), MempoolLoop(f, m, pool, 0, p.shortId))
  {
    var kept, full := PoolShows(p, pool), PoolFull(pool, p.shortId, p.ids);
    forall j: nat, g: Fill {:trigger WithMempool(g, m, pool[j], p.shortId)} | kept(j, g) && j < |pool| && InRange(g, m)
      ensures After(WithMempool(g, m, pool[j], p.shortId), m, j + 1, kept, full)
    {
      MempoolTurnAfter(g, p, m, pool, j);
    }
    MempoolInduction(f, m, pool, 0, p.shortId, kept, full);
  }

  lemma {:induction false} ExtraLoopShows(f: Fill, p: Plan, m: map<nat, nat>, pool: seq<Tx>, n: nat, extra: seq<Tx>)
    requires ExtraShowing(p, pool, n, extra)(0, f) && MappedWell(m, p.ids, p.slots, |p.ids|) && InRange(f, m)
    ensures ExtraShowing(p, pool, n, extra)(Stop(ExtraFull(pool, n, extra, p.shortId, p.ids), 0, |extra|),
                                            ExtraLoop(f, m, extra, 0, p.shortId))
  {
    var kept, full := ExtraShowing(p, pool, n, extra), ExtraFull(pool, n, extra, p.shortId, p.ids);
    forall j: nat, g: Fill {:trigger WithExtra(g, m, extra[j], p.shortId)} | kept(j, g) && j < |extra| && InRange(g, m)
      ensures After(WithExtra(g, m, extra[j], p.shortId), m, j + 1, kept, full)
    {
      ExtraTurnAfter(g, p, m, pool, n, extra, j);
    }
    ExtraInduction(f, m, extra, 0, p.shortId, kept, full);
  }

  /** Whatever is at hand, each slot ends up with what its matches make of it. */
  lemma {:induction false} ReconstructedShows(p: Plan, pool: seq<Tx>, extra: seq<Tx>)
    requires p.Ok()
    ensures Shows(Reconstructed(p, pool, extra), p, LookedAt(pool, extra, p.shortId, p.ids))
  {
    var m, h := IdMap(p), LookedAt(pool, extra, p.shortId, p.ids);
    StartShows(p, pool);
    MempoolLoopShows(Start(p), p, m, pool);
    ExtraStarts(AfterMempool(p, pool), p, pool, h.n, extra);
    ExtraLoopShows(AfterMempool(p, pool), p, m, pool, h.n, extra);
  }

  lemma {:induction false} StartShows(p: Plan, pool: seq<Tx>)
    requires p.Ok()
    ensures Shows(Start(p), p, Hand(pool, 0, [], 0))
  {
    StartsFilling(p.base, p, seq(|p.base|, _ => Tx(0, true)), false);
    forall k | 0 <= k < |p.ids| ensures SlotShows(Start(p), p, Hand(pool, 0, [], 0), k) {}
  }

  lemma {:induction false} ExtraStarts(f: Fill, p: Plan, pool: seq<Tx>, n: nat, extra: seq<Tx>)
    requires Shows(f, p, Hand(pool, n, [], 0))
    ensures Shows(f, p, Hand(pool, n, extra, 0))
  {
    forall k | 0 <= k < |p.ids| ensures SlotShows(f, p, Hand(pool, n, extra, 0), k) {
      assert SlotShows(f, p, Hand(pool, n, [], 0), k);
    }
  }

  // ---------------------------------------------------------------- when the list is the block

  /** Merging puts what a slot holds into its place. */
  lemma {:induction false} MergedAt(a: Slots, missing: seq<Tx>, n: nat, q: nat)
    requires q < n <= |a| && n - CountSome(a, n) <= |missing| && a[q].Some?
    ensures Merged(a, missing, n)[q] == a[q].value
  {
    if q < n - 1 { MergedAt(a, missing, n - 1, q); }
  }

  /** With the sender's transactions in the empty slots, the list is the block if and only if no slot holds another. */
  lemma {:induction false} MergedIffRight(a: Slots, block: seq<Tx>)
    requires |a| == |block|
    ensures Merged(a, Missing(a, block, |a|), |a|) == block <==>
            forall q :: 0 <= q < |a| ==> a[q] == None || a[q] == Some(block[q])
  {
    var missing := Missing(a, block, |a|);
    if forall q :: 0 <= q < |a| ==> a[q] == None || a[q] == Some(block[q]) {
      MergedIsBlock(a, block, missing, |a|);
      assert block[..|a|] == block;
    }
    if Merged(a, missing, |a|) == block {
      forall q | 0 <= q < |a| && a[q].Some? ensures a[q] == Some(block[q]) { MergedAt(a, missing, |a|, q); }
    }
  }

  /**
   * Of the transactions the receiver looks at, those with the identifier of one of the block's leave its slot empty or
   * are that transaction.
   */
  ghost predicate SlotRight(h: Hand, shortId: nat -> nat, t: Tx)
    requires h.Ok()
  {
    HeldFor(h, shortId, shortId(t.hash)) == None || HeldFor(h, shortId, shortId(t.hash)) == Some(t)
  }

  ghost predicate AllRight(block: seq<Tx>, shortId: nat -> nat, pool: seq<Tx>, extra: seq<Tx>)
    requires |block| > 0
  {
    forall q :: 1 <= q < |block| ==>
      SlotRight(LookedAt(pool, extra, shortId, IdsOf(block, shortId)), shortId, block[q])
  }

  /** One transaction with the identifier of another takes its slot, and stays. */
  lemma {:induction false} FalseMatchStays(coinbase: Tx, t: Tx, u: Tx, shortId: nat -> nat)
    requires shortId(u.hash) == shortId(t.hash) && u != t
    ensures !AllRight([coinbase, t], shortId, [u], [])
  {
    var ids := IdsOf([coinbase, t], shortId);
    OneMatch([u], shortId, ids[0]);
    assert HeldFor(LookedAt([u], [], shortId, ids), shortId, ids[0]) == Some(u);
    assert [coinbase, t][1] == t;
  }

  /** If the right one turns up after it, the slot is cleared, and the list comes out right. */
  lemma {:induction false} ClearedIsRight(coinbase: Tx, t: Tx, u: Tx, shortId: nat -> nat)
    requires shortId(u.hash) == shortId(t.hash) && u.hash != t.hash
    ensures AllRight([coinbase, t], shortId, [u], [t])
  {
    var ids := IdsOf([coinbase, t], shortId);
    OneMatch([u], shortId, ids[0]);
    OneMatch([t], shortId, ids[0]);
    var h := LookedAt([u], [t], shortId, ids);
    assert h.n == 1 && h.e == 1;
    assert ([u] + [t])[1] == t;
    assert HeldFor(h, shortId, ids[0]) == None;
  }

  lemma {:induction false} OneMatch(txs: seq<Tx>, shortId: nat -> nat, id: nat)
    requires |txs| == 1 && shortId(txs[0].hash) == id
    ensures Matches(txs, 0, shortId, id) == [] && Matches(txs, 1, shortId, id) == txs
  {}

  lemma {:induction false} SlotsRightIff(header: nat, block: seq<Tx>, shortId: nat -> nat, pool: seq<Tx>,
                                         extra: seq<Tx>, a: Slots)
    requires |block| > 0 && PlanOf(CompactOf(header, block, shortId)).Ok()
    requires a == Reconstructed(PlanOf(CompactOf(header, block, shortId)), pool, extra).avail
    ensures |a| == |block|
    ensures Merged(a, Missing(a, block, |a|), |a|) == block <==> AllRight(block, shortId, pool, extra)
  {
    var p := PlanOf(CompactOf(header, block, shortId));
    ReconstructedShows(p, pool, extra);
    LoopsKeep(p, pool, extra, AfterMempool(p, pool));
    PlainSlots(header, block, shortId);
    assert p.ids == IdsOf(block, shortId);
    PlainSlotsShow(Reconstructed(p, pool, extra), p, block, LookedAt(pool, extra, shortId, p.ids));
    MergedIffRight(a, block);
    RightSlots(a, block, shortId, LookedAt(pool, extra, shortId, p.ids));
  }

  lemma {:induction false} RightSlots(a: Slots, block: seq<Tx>, shortId: nat -> nat, h: Hand)
    requires h.Ok() && |a| == |block| > 0 && a[0] == Some(block[0])
    requires forall q :: 1 <= q < |block| ==> a[q] == HeldFor(h, shortId, shortId(block[q].hash))
    ensures (forall q :: 0 <= q < |a| ==> a[q] == None || a[q] == Some(block[q])) <==>
            forall q :: 1 <= q < |block| ==> SlotRight(h, shortId, block[q])
  {}

  lemma {:induction false} PlainSlotsShow(f: Fill, p: Plan, block: seq<Tx>, h: Hand)
    requires Shows(f, p, h) && FillOk(f, p) && |block| > 0 && |p.base| == |block| && |p.ids| == |p.slots| == |block| - 1
    requires p.base[0] == Some(block[0])
    requires forall k :: 0 <= k < |p.slots| ==> p.slots[k] == k + 1 && p.ids[k] == p.shortId(block[k + 1].hash)
    ensures f.avail[0] == Some(block[0])
    ensures forall q :: 1 <= q < |block| ==> f.avail[q] == HeldFor(h, p.shortId, p.shortId(block[q].hash))
  {
    forall q | 1 <= q < |block| ensures f.avail[q] == HeldFor(h, p.shortId, p.shortId(block[q].hash)) {
      assert SlotShows(f, p, h, q - 1) && p.slots[q - 1] == q;
    }
  }

  // ---------------------------------------------------------------- the whole exchange

  /** The receiver asks for the positions that hold nothing. */
  method MakeRequest(partial: PartiallyDownloadedBlock) returns (indices: seq<nat>)
    requires partial.header.Some?
    ensures indices == Empty(partial.txnsAvailable, |partial.txnsAvailable|)
  {
    indices := [];
    for i := 0 to |partial.txnsAvailable|
      invariant indices == Empty(partial.txnsAvailable, i)
    {
      var available := partial.IsTxAvailable(i);
      if !available { indices := indices + [i]; }
    }
  }

  /** The sender answers with the transactions at those positions, unless one is out of bounds. */
  method Answer(block: seq<Tx>, indices: seq<nat>) returns (r: Option<seq<Tx>>)
    ensures r.Some? <==> forall i :: 0 <= i < |indices| ==> indices[i] < |block|
    ensures r.Some? ==> |r.value| == |indices| && forall i :: 0 <= i < |indices| ==> r.value[i] == block[indices[i]]
  {
    var txn: seq<Tx> := [];
    for i := 0 to |indices|
      invariant |txn| == i && forall j :: 0 <= j < i ==> indices[j] < |block| && txn[j] == block[indices[j]]
    {
      if indices[i] >= |block| { return None; }
      txn := txn + [block[indices[i]]];
    }
    r := Some(txn);
  }

  lemma {:induction false} MissingAt(a: Slots, block: seq<Tx>, n: nat, k: nat)
    requires n <= |a| <= |block| && k < |Empty(a, n)|
    ensures Missing(a, block, n)[k] == block[Empty(a, n)[k]]
  {
    if k < |Empty(a, n - 1)| { MissingAt(a, block, n - 1, k); }
  }

  lemma AnswerIsMissing(a: Slots, block: seq<Tx>, txn: seq<Tx>)
    requires |a| == |block| && |txn| == |Empty(a, |a|)|
    requires forall i :: 0 <= i < |txn| ==> txn[i] == block[Empty(a, |a|)[i]]
    ensures txn == Missing(a, block, |a|)
  {
    forall k | 0 <= k < |txn| ensures txn[k] == Missing(a, block, |a|)[k] { MissingAt(a, block, |a|, k); }
  }

  /** Such a request always survives its differential coding. */
  lemma RequestRecovers(a: Slots)
    requires |a| < UINT32
    ensures var e := Empty(a, |a|); AreIndices(e) && Recover(Written(e)) == Some(e)
  {
    var e := Empty(a, |a|);
    EmptyAscends(a, |a|);
    RecoverWritten(e);
  }

  /** No transaction at hand has the identifier of one of the block's without being it. */
  ghost predicate OnlyMatches(block: seq<Tx>, shortId: nat -> nat, txs: seq<Tx>) {
    forall i, j :: 0 <= i < |txs| && 1 <= j < |block| && shortId(txs[i].hash) == shortId(block[j].hash) ==>
      txs[i] == block[j]
  }

  lemma {:induction false} OnlyMatchesIs(header: nat, block: seq<Tx>, shortId: nat -> nat, txs: seq<Tx>)
    requires |block| > 0 && OnlyMatches(block, shortId, txs)
    requires Describes(PlanOf(CompactOf(header, block, shortId)), block)
    ensures NoneFalse(PlanOf(CompactOf(header, block, shortId)), block, txs)
  {
    var p := PlanOf(CompactOf(header, block, shortId));
    PlainSlots(header, block, shortId);
    forall i | 0 <= i < |txs| ensures NoFalseMatch(p, block, txs[i]) {
      forall k | 0 <= k < |p.ids| && p.shortId(txs[i].hash) == p.ids[k] ensures txs[i] == block[p.slots[k]] {
        assert p.slots[k] == k + 1;
      }
    }
  }

  lemma {:induction false} SenderIsHonest(header: nat, block: seq<Tx>, shortId: nat -> nat, pool: seq<Tx>,
                                          extra: seq<Tx>)
    requires |block| > 0 && Distinct(pool) && DistinctIds(IdsOf(block, shortId))
    requires OnlyMatches(block, shortId, pool) && OnlyMatches(block, shortId, extra)
    ensures Honest(PlanOf(CompactOf(header, block, shortId)), block, pool, extra)
  {
    var ids := IdsOf(block, shortId);
    forall i, j | 1 <= i < j < |block| ensures shortId(block[i].hash) != shortId(block[j].hash) {
      assert ids[i - 1] != ids[j - 1];
    }
    CompactDescribes(header, block, shortId);
    OnlyMatchesIs(header, block, shortId, pool);
    OnlyMatchesIs(header, block, shortId, extra);
  }

  /** When the sender's form is taken. */
  ghost predicate Mapped(block: seq<Tx>, shortId: nat -> nat, crowded: (map<nat, nat>, nat) -> bool)
    requires |block| > 0
  {
    && NeverCrowded(crowded, IdsOf(block, shortId), seq(|block| - 1, i => i + 1))
    && DistinctIds(IdsOf(block, shortId))
  }

  lemma {:induction false} SenderMapsWell(header: nat, block: seq<Tx>, shortId: nat -> nat,
                                          crowded: (map<nat, nat>, nat) -> bool)
    requires |block| > 0 && !block[0].isNull
    ensures var c := CompactOf(header, block, shortId);
      && c.IndicesFit() && AllPrefilledOk(c) && c.BlockTxCount() == |block|
      && (MapsWell(c, crowded) <==> Mapped(block, shortId, crowded))
  {
    PlainSlots(header, block, shortId);
    var c := CompactOf(header, block, shortId);
    assert PlanOf(c).slots == seq(|block| - 1, i => i + 1);
    assert PrefilledAt(c.prefilled, 0) == -1;
  }

  /** The request goes out, comes back answered, and completes the list. */
  method Complete(partial: PartiallyDownloadedBlock, block: seq<Tx>, check: seq<Tx> -> Status)
    returns (status: Status, vtx: seq<Tx>)
    requires partial.header.Some? && |partial.txnsAvailable| == |block| < UINT32
    modifies partial
    ensures var a := old(partial.txnsAvailable); vtx == Merged(a, Missing(a, block, |a|), |a|) && status == check(vtx)
  {
    ghost var a := partial.txnsAvailable;
    var indices := MakeRequest(partial);
    RequestRecovers(a);
    var wire := WriteIndices(indices);
    assert wire[..|wire|] == wire;
    var request := ReadIndices(|wire|, wire);
    var answer := Answer(block, request.value);
    AnswerIsMissing(a, block, answer.value);
    status, vtx := partial.FillBlock(answer.value, check);
  }

  /**
   * From the sender's block to the receiver's: compact form, reconstruction, request, answer, completion. Two equal
   * identifiers in the block or a crowded bucket, and nothing else, make it fail before the request. Otherwise the
   * receiver's list is the block if and only if no slot ends up with another transaction; two that clash in one slot
   * leave it empty, so that it is asked for. If no identifiers clash at all, it is always the block.
   */
  method Exchange(header: nat, block: seq<Tx>, shortId: nat -> nat, pool: seq<Tx>, extra: seq<Tx>, maxTxs: nat,
                  crowded: (map<nat, nat>, nat) -> bool, check: seq<Tx> -> Status)
    returns (status: Status, vtx: seq<Tx>)
    requires 0 < |block| <= maxTxs < UINT32 && !block[0].isNull
    ensures !Mapped(block, shortId, crowded) ==> status == Failed
    ensures Mapped(block, shortId, crowded) ==>
      status == check(vtx) && |vtx| == |block| && (vtx == block <==> AllRight(block, shortId, pool, extra))
    ensures Mapped(block, shortId, crowded) && Distinct(pool) && OnlyMatches(block, shortId, pool + extra) ==>
      vtx == block
  {
    vtx := [];
    var c := MakeCompact(header, block, shortId);
    SenderMapsWell(header, block, shortId, crowded);
    var partial := new PartiallyDownloadedBlock();
    ghost var f;
    status, f := partial.InitData(c, extra, pool, maxTxs, crowded, block);
    if status == Fine {
      SlotsRightIff(header, block, shortId, pool, extra, partial.txnsAvailable);
      HonestIsRebuilt(header, block, shortId, pool, extra, f);
      status, vtx := Complete(partial, block, check);
    }
  }

  lemma {:induction false} HonestIsRebuilt(header: nat, block: seq<Tx>, shortId: nat -> nat, pool: seq<Tx>,
                                           extra: seq<Tx>, f: Fill)
    requires |block| > 0 && DistinctIds(IdsOf(block, shortId)) && |f.avail| == |block|
    requires Prepared(CompactOf(header, block, shortId), f, pool, extra, block)
    ensures Distinct(pool) && OnlyMatches(block, shortId, pool + extra) ==>
      Merged(f.avail, Missing(f.avail, block, |block|), |block|) == block
  {
    if Distinct(pool) && OnlyMatches(block, shortId, pool + extra) {
      OnlyMatchesParts(block, shortId, pool, extra);
      SenderIsHonest(header, block, shortId, pool, extra);
      var p := PlanOf(CompactOf(header, block, shortId));
      AvailableIs(f, p);
      Rebuilt(f.avail, f.mempoolCount, p, block, Seen(pool, |pool|) + Seen(extra, |extra|));
    }
  }

  lemma {:induction false} OnlyMatchesParts(block: seq<Tx>, shortId: nat -> nat, pool: seq<Tx>, extra: seq<Tx>)
    requires OnlyMatches(block, shortId, pool + extra)
    ensures OnlyMatches(block, shortId, pool) && OnlyMatches(block, shortId, extra)
  {
    var all := pool + extra;
    forall i | 0 <= i < |pool| ensures pool[i] == all[i] {}
    forall i | 0 <= i < |extra| ensures extra[i] == all[|pool| + i] {}
  }
}
