// The cuckoo cache of src/cuckoocache.h: eight hash locations, lazy erasure through packed flags,
// and an epoch heuristic that bounds how much of the table one epoch may occupy.
module CuckooCache {
  import Bits
  import opened Wrappers

  const UINT32: nat := 0x1_0000_0000

  /** A location outside every table. */
  const INVALID: nat := UINT32 - 1

  // ---------------------------------------------------------------- packed collection flags

  function Mask(s: nat): bv8 { 1 << (s % 8) }

  predicate Bit(mem: seq<bv8>, s: nat)
    requires s / 8 < |mem|
  {
    Mask(s) & mem[s / 8] != 0
  }

  /** Masks of different positions in a byte do not overlap. */
  lemma MasksDiffer(s: nat, t: nat, b: bv8)
    ensures Mask(s) != 0
    ensures s % 8 != t % 8 ==> Mask(t) & (b | Mask(s)) == Mask(t) & b && Mask(t) & (b & !Mask(s)) == Mask(t) & b
    ensures Mask(s) & (b | Mask(s)) == Mask(s) && Mask(s) & (b & !Mask(s)) == 0
  {
    MaskIs(s);
    MaskIs(t);
  }

  lemma MaskIs(s: nat)
    ensures Mask(s) ==
      (if s % 8 == 0 then 1 else if s % 8 == 1 then 2 else if s % 8 == 2 then 4 else if s % 8 == 3 then 8
       else if s % 8 == 4 then 16 else if s % 8 == 5 then 32 else if s % 8 == 6 then 64 else 128)
  {
    var k := s % 8;
    if k == 0 { assert Mask(s) == 1 << 0; }
    else if k == 1 { assert Mask(s) == 1 << 1; }
    else if k == 2 { assert Mask(s) == 1 << 2; }
    else if k == 3 { assert Mask(s) == 1 << 3; }
    else if k == 4 { assert Mask(s) == 1 << 4; }
    else if k == 5 { assert Mask(s) == 1 << 5; }
    else if k == 6 { assert Mask(s) == 1 << 6; }
    else { assert Mask(s) == 1 << 7; }
  }

  lemma BitAfterSet(mem: seq<bv8>, s: nat, t: nat)
    requires s / 8 < |mem| && t / 8 < |mem|
    ensures Bit(mem[s / 8 := mem[s / 8] | Mask(s)], t) <==> t == s || Bit(mem, t)
  {
    if t != s && t / 8 == s / 8 { assert t % 8 != s % 8; }
    MasksDiffer(s, t, mem[s / 8]);
  }

  lemma BitAfterUnset(mem: seq<bv8>, s: nat, t: nat)
    requires s / 8 < |mem| && t / 8 < |mem|
    ensures Bit(mem[s / 8 := mem[s / 8] & !Mask(s)], t) <==> t != s && Bit(mem, t)
  {
    if t != s && t / 8 == s / 8 { assert t % 8 != s % 8; }
    MasksDiffer(s, t, mem[s / 8]);
  }

  class BitPackedFlags {
    var mem: seq<bv8>

    constructor (size: nat)
      requires size + 7 < UINT32
      ensures size <= 8 * |mem|
      ensures forall t: nat :: t < 8 * |mem| ==> Bit(mem, t)
    {
      mem := seq((size + 7) / 8, i => 0xFF);
      new;
      forall t: nat | t < 8 * |mem|
        ensures Bit(mem, t)
      {
        MasksDiffer(t, t, 0xFF);
        assert Mask(t) & 0xFF == Mask(t);
      }
    }

    method BitSet(s: nat)
      requires s < 8 * |mem|
      modifies this
      ensures |mem| == |old(mem)|
      ensures forall t: nat :: t < 8 * |mem| ==> (Bit(mem, t) <==> t == s || Bit(old(mem), t))
    {
      mem := mem[s / 8 := mem[s / 8] | Mask(s)];
      forall t: nat | t < 8 * |mem|
        ensures Bit(mem, t) <==> t == s || Bit(old(mem), t)
      {
        BitAfterSet(old(mem), s, t);
      }
    }

    method BitUnset(s: nat)
      requires s < 8 * |mem|
      modifies this
      ensures |mem| == |old(mem)|
      ensures forall t: nat :: t < 8 * |mem| ==> (Bit(mem, t) <==> t != s && Bit(old(mem), t))
    {
      mem := mem[s / 8 := mem[s / 8] & !Mask(s)];
      forall t: nat | t < 8 * |mem|
        ensures Bit(mem, t) <==> t != s && Bit(old(mem), t)
      {
        BitAfterUnset(old(mem), s, t);
      }
    }

    method BitIsSet(s: nat) returns (b: bool)
      requires s < 8 * |mem|
      ensures b == Bit(mem, s)
    {
      b := Mask(s) & mem[s / 8] != 0;
    }
  }

  // ---------------------------------------------------------------- the state of a cache

  /** The eight masked hashes of an element are modelled by a function from its index to a number. */
  type Hasher<!E> = (E, nat) -> nat

  datatype Core<E> = Core(table: seq<E>, collected: seq<bool>, recent: seq<bool>, counter: nat)
  {
    predicate Shaped() { |collected| == |recent| == |table| > 0 }
  }

  /** compute_hashes: each of the eight hashes, masked to the size of the table. */
  function Loc<E>(hash: Hasher<E>, size: nat, e: E, k: nat): (loc: nat)
    requires size > 0
    ensures loc < size
  {
    hash(e, k) % size
  }

  predicate AreLocs<E>(locs: seq<nat>, hash: Hasher<E>, size: nat, e: E)
    requires size > 0
  {
    |locs| == 8 && forall k :: 0 <= k < 8 ==> locs[k] == Loc(hash, size, e, k)
  }

  predicate IsLoc<E>(hash: Hasher<E>, size: nat, e: E, loc: nat)
    requires size > 0
  {
    exists k :: 0 <= k < 8 && Loc(hash, size, e, k) == loc
  }

  /** The elements in slots that are not marked for collection. */
  ghost function Live<E>(c: Core<E>): set<E>
    requires c.Shaped()
  {
    set i | 0 <= i < |c.table| && !c.collected[i] :: c.table[i]
  }

  /** The live elements of the current epoch. */
  ghost function Young<E>(c: Core<E>): set<E>
    requires c.Shaped()
  {
    set i | 0 <= i < |c.table| && !c.collected[i] && c.recent[i] :: c.table[i]
  }

  /** Elements lie in one of their own slots; only the default element may occur twice or be out of place. */
  ghost predicate Placed<E>(c: Core<E>, hash: Hasher<E>, dflt: E)
    requires c.Shaped()
  {
    && (forall i :: 0 <= i < |c.table| && (!c.collected[i] || c.table[i] != dflt) ==>
         IsLoc(hash, |c.table|, c.table[i], i))
    && (forall i, j :: 0 <= i < |c.table| && 0 <= j < |c.table| && c.table[i] == c.table[j] && c.table[i] != dflt ==>
         i == j)
  }

  /** How many of the first n slots hold a live element of the current epoch. */
  function Current<E>(c: Core<E>, n: nat): (r: nat)
    requires c.Shaped() && n <= |c.table|
    ensures r <= n
  {
    if n == 0 then 0 else Current(c, n - 1) + (if c.recent[n - 1] && !c.collected[n - 1] then 1 else 0)
  }

  function Load<E>(c: Core<E>): nat
    requires c.Shaped()
  {
    Current(c, |c.table|)
  }

  function Max(a: int, b: int): int { if a >= b then a else b }

  /** What an epoch may grow to. */
  function Bound(epochSize: nat): nat { epochSize + Max(1, epochSize / 16) }

  /** The counter never promises more than the bound leaves room for. */
  predicate Bounded<E>(c: Core<E>, epochSize: nat)
    requires c.Shaped()
  {
    Load(c) + c.counter <= Bound(epochSize)
  }

  ghost predicate Inv<E>(c: Core<E>, hash: Hasher<E>, dflt: E, epochSize: nat) {
    c.Shaped() && Placed(c, hash, dflt) && Bounded(c, epochSize)
  }

  function SlotCount<E>(c: Core<E>, i: nat): nat
    requires c.Shaped() && i < |c.table|
  {
    if c.recent[i] && !c.collected[i] then 1 else 0
  }

  /** Changing one slot changes the count by that slot. */
  lemma {:induction false} CurrentAt<E>(c: Core<E>, d: Core<E>, i: nat, n: nat)
    requires c.Shaped() && d.Shaped() && |c.table| == |d.table| && i < |c.table| && n <= |c.table|
    requires forall j :: 0 <= j < |c.table| && j != i ==> c.recent[j] == d.recent[j] && c.collected[j] == d.collected[j]
    ensures Current(d, n) == Current(c, n) + if i < n then SlotCount(d, i) - SlotCount(c, i) else 0
  {
    if n > 0 { CurrentAt(c, d, i, n - 1); }
  }

  lemma {:induction false} CurrentZero<E>(c: Core<E>, n: nat)
    requires c.Shaped() && n <= |c.table|
    requires forall j :: 0 <= j < n ==> !c.recent[j] || c.collected[j]
    ensures Current(c, n) == 0
  {
    if n > 0 { CurrentZero(c, n - 1); }
  }

  // ---------------------------------------------------------------- ageing

  /** epoch_check: count down, or scan and then either age every element by one epoch or wait again. */
  function Checked<E>(c: Core<E>, epochSize: nat): Core<E>
    requires c.Shaped()
  {
    if c.counter != 0 then c.(counter := c.counter - 1)
    else if Load(c) >= epochSize then
      Core(c.table, seq(|c.table|, i requires 0 <= i < |c.table| => c.collected[i] || !c.recent[i]),
           seq(|c.table|, i => false), epochSize)
    else c.(counter := Max(1, Max(epochSize / 16, epochSize - Load(c))))
  }

  /** The check leaves room for one more element, and erases no element of the current epoch. */
  lemma CheckedKeeps<E>(c: Core<E>, hash: Hasher<E>, dflt: E, epochSize: nat)
    requires Inv(c, hash, dflt, epochSize)
    ensures Inv(Checked(c, epochSize), hash, dflt, epochSize)
    ensures Load(Checked(c, epochSize)) + Checked(c, epochSize).counter < Bound(epochSize)
    ensures Live(Checked(c, epochSize)) <= Live(c)
    ensures forall i :: 0 <= i < |c.table| && c.recent[i] && !c.collected[i] ==>
      c.table[i] in Live(Checked(c, epochSize))
    ensures c.counter > 0 || Load(c) < epochSize ==> Live(Checked(c, epochSize)) == Live(c)
    ensures c.counter == 0 && Load(c) < epochSize ==>
      Load(c) + Checked(c, epochSize).counter >= epochSize && Checked(c, epochSize).counter >= epochSize / 16
    ensures c.counter == 0 && Load(c) >= epochSize ==> Checked(c, epochSize).counter == epochSize
  {
    var d := Checked(c, epochSize);
    if c.counter == 0 && Load(c) >= epochSize {
      CurrentZero(d, |d.table|);
    } else {
      SameFlags(c, d, |c.table|);
    }
  }

  lemma {:induction false} SameFlags<E>(c: Core<E>, d: Core<E>, n: nat)
    requires c.Shaped() && d.Shaped() && n <= |c.table| == |d.table| && c.recent == d.recent
    requires c.collected == d.collected
    ensures Current(d, n) == Current(c, n)
  {
    if n > 0 { SameFlags(c, d, n - 1); }
  }

  // ---------------------------------------------------------------- placing and displacing

  function Kept<E>(c: Core<E>, loc: nat): Core<E>
    requires c.Shaped() && loc < |c.table|
  {
    c.(collected := c.collected[loc := false], recent := c.recent[loc := true])
  }

  function Put<E>(c: Core<E>, loc: nat, e: E, epoch: bool): Core<E>
    requires c.Shaped() && loc < |c.table|
  {
    Core(c.table[loc := e], c.collected[loc := false], c.recent[loc := epoch], c.counter)
  }

  function Displaced<E>(c: Core<E>, loc: nat, e: E, epoch: bool): Core<E>
    requires c.Shaped() && loc < |c.table|
  {
    c.(table := c.table[loc := e], recent := c.recent[loc := epoch])
  }

  ghost function Hand<E>(e: E, held: bool): set<E> { if held then {e} else {} }

  /** The epoch of an element moves with it. */
  ghost predicate EpochCarried<E>(start: Core<E>, added: E, c: Core<E>, e: E, epoch: bool) {
    start.Shaped() && c.Shaped() && Young(c) + Hand(e, epoch) == Young(start) + {added}
  }

  ghost predicate EpochsKept<E>(start: Core<E>, added: E, c: Core<E>, dropped: Option<E>) {
    && start.Shaped() && c.Shaped() && Young(c) <= Young(start) + {added}
    && Young(start) + {added} <= Young(c) + if dropped.Some? then {dropped.value} else {}
  }

  /** Changing one slot, which becomes or stays live, changes the young elements only there. */
  lemma YoungChanges<E>(c: Core<E>, d: Core<E>, loc: nat)
    requires c.Shaped() && d.Shaped() && |c.table| == |d.table| && loc < |c.table| && !d.collected[loc]
    requires forall i :: 0 <= i < |c.table| && i != loc ==>
      c.table[i] == d.table[i] && c.collected[i] == d.collected[i] && c.recent[i] == d.recent[i]
    ensures Young(d) + Hand(c.table[loc], c.recent[loc] && !c.collected[loc])
      == Young(c) + Hand(d.table[loc], d.recent[loc])
  {
    var left := Young(d) + Hand(c.table[loc], c.recent[loc] && !c.collected[loc]);
    var right := Young(c) + Hand(d.table[loc], d.recent[loc]);
    forall x | x in Young(d) ensures x in right {
      var i :| 0 <= i < |d.table| && !d.collected[i] && d.recent[i] && d.table[i] == x;
      assert i != loc ==> c.table[i] in Young(c);
    }
    forall x | x in Young(c) ensures x in left {
      var i :| 0 <= i < |c.table| && !c.collected[i] && c.recent[i] && c.table[i] == x;
      assert i != loc ==> d.table[i] in Young(d);
    }
    assert d.recent[loc] ==> d.table[loc] in Young(d);
    assert c.recent[loc] && !c.collected[loc] ==> c.table[loc] in Young(c);
  }

  /**
   * The element in hand belongs nowhere in the table, and together they make up what was live and the element being
   * inserted.
   */
  ghost predicate Carrying<E>(start: Core<E>, added: E, c: Core<E>, e: E, epoch: bool, hash: Hasher<E>, dflt: E) {
    && start.Shaped() && c.Shaped() && |c.table| == |start.table| && c.counter == start.counter
    && Placed(c, hash, dflt)
    && (e != dflt ==> forall i :: 0 <= i < |c.table| ==> c.table[i] != e)
    && Live(c) + {e} == Live(start) + {added} && EpochCarried(start, added, c, e, epoch)
    && Load(c) + (if epoch then 1 else 0) == Load(start) + 1
  }

  /**
   * What an insertion does to the live elements: adds one to the current epoch, drops at most one, and moves no other
   * between epochs.
   */
  ghost predicate InsertedInto<E>(start: Core<E>, added: E, c: Core<E>, dropped: Option<E>, hash: Hasher<E>, dflt: E) {
    && start.Shaped() && c.Shaped() && |c.table| == |start.table| && c.counter == start.counter
    && Placed(c, hash, dflt) && Load(c) <= Load(start) + 1 && EpochsKept(start, added, c, dropped)
    && match dropped
       case None => Live(c) == Live(start) + {added}
       case Some(d) => Live(c) + {d} == Live(start) + {added} && (d != dflt ==> d !in Live(c))
  }

  lemma KeptInserts<E>(c: Core<E>, e: E, loc: nat, hash: Hasher<E>, dflt: E)
    requires c.Shaped() && Placed(c, hash, dflt)
    requires loc < |c.table| && c.table[loc] == e && IsLoc(hash, |c.table|, e, loc)
    ensures InsertedInto(c, e, Kept(c, loc), None, hash, dflt)
  {
    var d := Kept(c, loc);
    CurrentAt(c, d, loc, |c.table|);
    LiveChanges(c, d, loc);
    YoungChanges(c, d, loc);
  }

  /** Changing one slot changes the live elements only there. */
  lemma LiveChanges<E>(c: Core<E>, d: Core<E>, loc: nat)
    requires c.Shaped() && d.Shaped() && |c.table| == |d.table| && loc < |c.table| && !d.collected[loc]
    requires forall i :: 0 <= i < |c.table| && i != loc ==> c.table[i] == d.table[i] && c.collected[i] == d.collected[i]
    ensures Live(d) <= Live(c) + {d.table[loc]} && d.table[loc] in Live(d)
    ensures Live(c) <= Live(d) + {c.table[loc]}
    ensures c.collected[loc] || c.table[loc] == d.table[loc] ==> Live(d) == Live(c) + {d.table[loc]}
    ensures !c.collected[loc] ==> Live(d) + {c.table[loc]} == Live(c) + {d.table[loc]}
  {
    forall x | x in Live(d) ensures x in Live(c) + {d.table[loc]} {
      var i :| 0 <= i < |d.table| && !d.collected[i] && d.table[i] == x;
      assert i != loc ==> c.table[i] in Live(c);
    }
    forall x | x in Live(c)
      ensures x in Live(d) + {c.table[loc]}
      ensures c.collected[loc] ==> x in Live(d)
    {
      var i :| 0 <= i < |c.table| && !c.collected[i] && c.table[i] == x;
      assert i != loc ==> d.table[i] in Live(d);
    }
    assert d.table[loc] in Live(d);
    assert !c.collected[loc] ==> c.table[loc] in Live(c);
  }

  lemma PlacedAfter<E>(c: Core<E>, d: Core<E>, loc: nat, e: E, hash: Hasher<E>, dflt: E)
    requires c.Shaped() && Placed(c, hash, dflt) && d.Shaped() && loc < |c.table|
    requires d.table == c.table[loc := e]
    requires (forall i :: 0 <= i < |c.table| && i != loc ==> d.collected[i] == c.collected[i])
    requires IsLoc(hash, |c.table|, e, loc) && (e != dflt ==> forall i :: 0 <= i < |c.table| ==> c.table[i] != e)
    ensures Placed(d, hash, dflt)
  {
  }

  lemma PutInserts<E>(start: Core<E>, added: E, c: Core<E>, e: E, epoch: bool, loc: nat, hash: Hasher<E>, dflt: E)
    requires Carrying(start, added, c, e, epoch, hash, dflt)
    requires loc < |c.table| && c.collected[loc] && IsLoc(hash, |c.table|, e, loc)
    ensures InsertedInto(start, added, Put(c, loc, e, epoch), None, hash, dflt)
  {
    var d := Put(c, loc, e, epoch);
    CurrentAt(c, d, loc, |c.table|);
    LiveChanges(c, d, loc);
    YoungChanges(c, d, loc);
    PlacedAfter(c, d, loc, e, hash, dflt);
  }

  lemma DisplacedEpoch<E>(start: Core<E>, added: E, c: Core<E>, e: E, epoch: bool, loc: nat)
    requires EpochCarried(start, added, c, e, epoch) && loc < |c.table| && !c.collected[loc]
    ensures EpochCarried(start, added, Displaced(c, loc, e, epoch), c.table[loc], c.recent[loc])
  {
    YoungChanges(c, Displaced(c, loc, e, epoch), loc);
  }

  /** The element taken out of a live slot is nowhere else in the table. */
  lemma EvictedIsGone<E>(c: Core<E>, e: E, loc: nat, hash: Hasher<E>, dflt: E)
    requires c.Shaped() && Placed(c, hash, dflt) && loc < |c.table|
    requires e != dflt ==> forall i :: 0 <= i < |c.table| ==> c.table[i] != e
    ensures var after := c.table[loc := e];
      c.table[loc] != dflt ==> forall i :: 0 <= i < |after| ==> after[i] != c.table[loc]
  {
  }

  lemma DisplacedCarries<E>(start: Core<E>, added: E, c: Core<E>, e: E, epoch: bool, loc: nat, hash: Hasher<E>, dflt: E)
    requires Carrying(start, added, c, e, epoch, hash, dflt)
    requires loc < |c.table| && !c.collected[loc] && IsLoc(hash, |c.table|, e, loc)
    ensures Carrying(start, added, Displaced(c, loc, e, epoch), c.table[loc], c.recent[loc], hash, dflt)
  {
    var d := Displaced(c, loc, e, epoch);
    CurrentAt(c, d, loc, |c.table|);
    LiveChanges(c, d, loc);
    EvictedIsGone(c, e, loc, hash, dflt);
    DisplacedEpoch(start, added, c, e, epoch, loc);
    PlacedAfter(c, d, loc, e, hash, dflt);
  }

  lemma DroppedInserts<E>(start: Core<E>, added: E, c: Core<E>, e: E, epoch: bool, hash: Hasher<E>, dflt: E)
    requires Carrying(start, added, c, e, epoch, hash, dflt)
    ensures InsertedInto(start, added, c, Some(e), hash, dflt)
  {
  }

  predicate NoFree<E>(c: Core<E>, hash: Hasher<E>, e: E)
    requires c.Shaped()
  {
    forall k :: 0 <= k < 8 ==> !c.collected[Loc(hash, |c.table|, e, k)]
  }

  ghost predicate NotInSlots<E>(c: Core<E>, e: E, hash: Hasher<E>)
    requires c.Shaped()
  {
    forall k :: 0 <= k < 8 ==> c.table[Loc(hash, |c.table|, e, k)] != e
  }

  /** The element is kept in the first of its slots that holds it, and belongs to the current epoch. */
  ghost predicate RenewedIn<E>(c: Core<E>, e: E, hash: Hasher<E>, d: Core<E>)
    requires c.Shaped()
  {
    exists k: nat :: k < 8 && c.table[Loc(hash, |c.table|, e, k)] == e && d == Kept(c, Loc(hash, |c.table|, e, k)) &&
      forall j :: 0 <= j < k ==> c.table[Loc(hash, |c.table|, e, j)] != e
  }

  /** Which slots are free does not depend on what they hold. */
  lemma {:induction false} SameRoom<E>(c: Core<E>, d: Core<E>, hash: Hasher<E>, e: E)
    requires c.Shaped() && d.Shaped() && |c.table| == |d.table| && c.collected == d.collected
    ensures NoFree(c, hash, e) <==> NoFree(d, hash, e)
    ensures forall k: nat :: FirstFree(c, hash, e, k) <==> FirstFree(d, hash, e, k)
  {}

  lemma NotInSlotsNotInTable<E>(c: Core<E>, e: E, hash: Hasher<E>, dflt: E)
    requires c.Shaped() && Placed(c, hash, dflt) && NotInSlots(c, e, hash)
    ensures e != dflt ==> forall i :: 0 <= i < |c.table| ==> c.table[i] != e
    ensures Carrying(c, e, c, e, true, hash, dflt)
  {
    if e != dflt {
      forall i | 0 <= i < |c.table| ensures c.table[i] != e {}
    }
  }

  lemma NotInSlotsNotLive<E>(c: Core<E>, e: E, hash: Hasher<E>, dflt: E)
    requires c.Shaped() && Placed(c, hash, dflt) && NotInSlots(c, e, hash)
    ensures e !in Live(c) && (e != dflt ==> e !in c.table)
  {
    NotInSlotsNotInTable(c, e, hash, dflt);
  }

  /** An erasing lookup: the element is no longer live, and nothing else changes. */
  ghost predicate Erased<E>(c: Core<E>, d: Core<E>, e: E, dflt: E) {
    && c.Shaped() && d.Shaped() && d.table == c.table && d.counter == c.counter && Load(d) <= Load(c)
    && (if e != dflt then Live(d) == Live(c) - {e} else Live(d) <= Live(c) <= Live(d) + {e})
    && Young(c) <= Young(d) + {e}
  }

  lemma ErasedKeeps<E>(c: Core<E>, loc: nat, hash: Hasher<E>, dflt: E, epochSize: nat)
    requires Inv(c, hash, dflt, epochSize) && loc < |c.table|
    ensures var d := c.(collected := c.collected[loc := true]);
      Inv(d, hash, dflt, epochSize) && Erased(c, d, c.table[loc], dflt)
  {
    var d := c.(collected := c.collected[loc := true]);
    CurrentAt(c, d, loc, |c.table|);
    forall x | x in Live(c) && x != c.table[loc] ensures x in Live(d) {
      var i :| 0 <= i < |c.table| && !c.collected[i] && c.table[i] == x;
      assert d.table[i] in Live(d);
    }
    forall x | x in Live(d) ensures x in Live(c) {
      var i :| 0 <= i < |d.table| && !d.collected[i] && d.table[i] == x;
      assert c.table[i] in Live(c);
    }
    YoungAfterErase(c, loc);
  }

  lemma YoungAfterErase<E>(c: Core<E>, loc: nat)
    requires c.Shaped() && loc < |c.table|
    ensures Young(c) <= Young(c.(collected := c.collected[loc := true])) + {c.table[loc]}
  {
    var d := c.(collected := c.collected[loc := true]);
    forall x | x in Young(c) && x != c.table[loc] ensures x in Young(d) {
      var i :| 0 <= i < |c.table| && !c.collected[i] && c.recent[i] && c.table[i] == x;
      assert d.table[i] in Young(d);
    }
  }

  /** The index of the first of e's slots, from the k-th on, that is loc; 8 if none is. */
  function FirstLoc<E>(hash: Hasher<E>, size: nat, e: E, loc: nat, k: nat): (r: nat)
    requires size > 0 && k <= 8
    ensures k <= r <= 8
    decreases 8 - k
  {
    if k == 8 || Loc(hash, size, e, k) == loc then k else FirstLoc(hash, size, e, loc, k + 1)
  }

  lemma {:induction false} FirstLocIs<E>(hash: Hasher<E>, size: nat, e: E, loc: nat, r: nat, k: nat)
    requires size > 0 && k <= r <= 8 && (r < 8 ==> Loc(hash, size, e, r) == loc)
    requires forall j :: k <= j < r ==> Loc(hash, size, e, j) != loc
    ensures FirstLoc(hash, size, e, loc, k) == r
    decreases 8 - k
  {
    if k < r { FirstLocIs(hash, size, e, loc, r, k + 1); }
  }

  /** The slot after the one last used. */
  function NextLoc<E>(hash: Hasher<E>, size: nat, e: E, lastLoc: nat): (r: nat)
    requires size > 0
    ensures r < size
  {
    Loc(hash, size, e, (1 + FirstLoc(hash, size, e, lastLoc, 0)) % 8)
  }

  /**
   * The first exchange uses the second slot.  Later the element in hand goes straight back to the slot it was taken
   * from if and only if two of its hashes, one after the other, lead there.
   */
  lemma NextLocMovesOn<E>(hash: Hasher<E>, size: nat, e: E, lastLoc: nat)
    requires 0 < size < UINT32
    ensures NextLoc(hash, size, e, INVALID) == Loc(hash, size, e, 1)
    ensures IsLoc(hash, size, e, lastLoc) ==>
      (NextLoc(hash, size, e, lastLoc) == lastLoc <==> exists r :: 0 <= r < 8 && GoesBack(hash, size, e, lastLoc, r))
  {
    FirstLocIs(hash, size, e, INVALID, 8, 0);
    if IsLoc(hash, size, e, lastLoc) {
      var r := FirstLoc(hash, size, e, lastLoc, 0);
      FirstLocFinds(hash, size, e, lastLoc, 0);
      if NextLoc(hash, size, e, lastLoc) == lastLoc { assert GoesBack(hash, size, e, lastLoc, r); }
      forall q | 0 <= q < 8 && GoesBack(hash, size, e, lastLoc, q)
        ensures q == r
      {
        FirstLocIs(hash, size, e, lastLoc, q, 0);
      }
    }
  }

  /** The r-th hash is the first that leads to the slot, and so does the next one. */
  predicate GoesBack<E>(hash: Hasher<E>, size: nat, e: E, loc: nat, r: nat)
    requires size > 0
  {
    && Loc(hash, size, e, r) == loc && (forall j :: 0 <= j < r ==> Loc(hash, size, e, j) != loc)
    && Loc(hash, size, e, (1 + r) % 8) == loc
  }

  /** With the first two hashes alike, two exchanges put back the table that was, and the new element is in hand. */
  lemma {:induction false} StraightBack<E>(c: Core<E>, added: E, epoch: bool)
    requires c.Shaped() && |c.table| == 8
    ensures var hash: Hasher<E> := (_, k) => if k < 2 then 0 else k; var other := c.table[0];
      && NextLoc(hash, 8, added, INVALID) == 0 && NextLoc(hash, 8, other, 0) == 0
      && Displaced(Displaced(c, 0, added, epoch), 0, other, c.recent[0]) == c
  {
    var hash: Hasher<E>, other := (_, k) => if k < 2 then 0 else k, c.table[0];
    NextLocMovesOn(hash, 8, added, INVALID);
    FirstLocIs(hash, 8, other, 0, 0, 0);
  }

  lemma {:induction false} FirstLocFinds<E>(hash: Hasher<E>, size: nat, e: E, loc: nat, k: nat)
    requires size > 0 && k <= 8 && exists j :: k <= j < 8 && Loc(hash, size, e, j) == loc
    ensures var r := FirstLoc(hash, size, e, loc, k);
      k <= r < 8 && Loc(hash, size, e, r) == loc && forall j :: k <= j < r ==> Loc(hash, size, e, j) != loc
    decreases 8 - k
  {
    if Loc(hash, size, e, k) != loc { FirstLocFinds(hash, size, e, loc, k + 1); }
  }

  // ---------------------------------------------------------------- the chain of elements in hand

  /** The table, the element in hand with its epoch, and the slot it was taken from. */
  datatype Hold<E> = Hold(core: Core<E>, e: E, epoch: bool, loc: nat)

  /** What is in hand after k exchanges that start with a new element, if there are as many. */
  ghost function InHand<E>(hash: Hasher<E>, start: Core<E>, e: E, k: nat): (h: Hold<E>)
    requires start.Shaped()
    ensures h.core.Shaped() && |h.core.table| == |start.table| && h.core.collected == start.collected
    ensures h.core.counter == start.counter
  {
    if k == 0 then Hold(start, e, true, INVALID) else Swapped(hash, InHand(hash, start, e, k - 1))
  }

  /** The element in hand is exchanged for what its next slot holds. */
  function Swapped<E>(hash: Hasher<E>, h: Hold<E>): (h': Hold<E>)
    requires h.core.Shaped()
    ensures h'.core.Shaped() && |h'.core.table| == |h.core.table| && h'.core.collected == h.core.collected
    ensures h'.core.counter == h.core.counter
  {
    var loc := NextLoc(hash, |h.core.table|, h.e, h.loc);
    Hold(Displaced(h.core, loc, h.e, h.epoch), h.core.table[loc], h.core.recent[loc], loc)
  }

  /** The k-th slot is the first of e's that may be overwritten. */
  predicate FirstFree<E>(c: Core<E>, hash: Hasher<E>, e: E, k: nat)
    requires c.Shaped()
  {
    k < 8 && c.collected[Loc(hash, |c.table|, e, k)] &&
    forall j :: 0 <= j < k ==> !c.collected[Loc(hash, |c.table|, e, j)]
  }

  lemma {:induction false} FreeAmong<E>(c: Core<E>, hash: Hasher<E>, e: E, locs: seq<nat>, k: nat)
    requires c.Shaped() && AreLocs(locs, hash, |c.table|, e) && k <= 8 && (k < 8 ==> c.collected[locs[k]])
    requires forall j :: 0 <= j < k ==> !c.collected[locs[j]]
    ensures if k < 8 then FirstFree(c, hash, e, k) else NoFree(c, hash, e)
  {
    forall j: nat | j < k ensures !c.collected[Loc(hash, |c.table|, e, j)] {
      assert locs[j] == Loc(hash, |c.table|, e, j);
    }
  }

  /** No element in hand before the n-th exchange finds a free slot. */
  ghost predicate NoneFits<E>(hash: Hasher<E>, start: Core<E>, e: E, n: nat)
    requires start.Shaped()
  {
    forall k: nat :: k < n ==> FindsNoRoom(hash, start, e, k)
  }

  ghost predicate FindsNoRoom<E>(hash: Hasher<E>, start: Core<E>, e: E, k: nat)
    requires start.Shaped()
  {
    NoFree(start, hash, InHand(hash, start, e, k).e)
  }

  /** An element in hand is put into its first free slot. */
  ghost predicate PutFirstFree<E>(hash: Hasher<E>, c: Core<E>, e: E, epoch: bool, d: Core<E>)
    requires c.Shaped()
  {
    exists f: nat :: FirstFree(c, hash, e, f) && d == Put(c, Loc(hash, |c.table|, e, f), e, epoch)
  }

  /** The first element in hand that finds a free slot is the k-th, and settles there. */
  ghost predicate SettledAt<E>(hash: Hasher<E>, start: Core<E>, e: E, c: Core<E>, k: nat)
    requires start.Shaped()
  {
    && NoneFits(hash, start, e, k)
    && var h := InHand(hash, start, e, k); PutFirstFree(hash, h.core, h.e, h.epoch, c)
  }

  /** The state of the loop after k exchanges. */
  ghost predicate Chained<E>(hash: Hasher<E>, start: Core<E>, e: E, k: nat, h: Hold<E>) {
    start.Shaped() && h == InHand(hash, start, e, k) && NoneFits(hash, start, e, k)
  }

  lemma {:induction false} ChainGrows<E>(hash: Hasher<E>, start: Core<E>, e: E, k: nat, h: Hold<E>, h': Hold<E>)
    requires Chained(hash, start, e, k, h) && NoFree(h.core, hash, h.e) && h' == Swapped(hash, h)
    ensures Chained(hash, start, e, k + 1, h')
  {
    SameRoom(h.core, start, hash, h.e);
    assert FindsNoRoom(hash, start, e, k);
  }

  /**
   * What the displacement loop makes of the table: the first of the elements in hand that finds room settles; when none
   * of the first `limit` does, the next one in hand is dropped.
   */
  ghost predicate Displacement<E>(hash: Hasher<E>, start: Core<E>, e: E, limit: nat, c: Core<E>, dropped: Option<E>)
    requires start.Shaped()
  {
    match dropped
    case None => exists k: nat :: k < limit && SettledAt(hash, start, e, c, k)
    case Some(d) =>
      NoneFits(hash, start, e, limit) && d == InHand(hash, start, e, limit).e && c == InHand(hash, start, e, limit).core
  }

  lemma {:induction false} ChainSettles<E>(hash: Hasher<E>, start: Core<E>, e: E, k: nat, h: Hold<E>, limit: nat,
                                           c: Core<E>)
    requires Chained(hash, start, e, k, h) && k < limit && PutFirstFree(hash, h.core, h.e, h.epoch, c)
    ensures Displacement(hash, start, e, limit, c, None)
  {
    assert SettledAt(hash, start, e, c, k);
  }

  lemma {:induction false} ChainStarts<E>(hash: Hasher<E>, start: Core<E>, e: E)
    requires start.Shaped()
    ensures Chained(hash, start, e, 0, Hold(start, e, true, INVALID))
  {}

  lemma {:induction false} ChainEnds<E>(hash: Hasher<E>, start: Core<E>, e: E, h: Hold<E>, limit: nat)
    requires Chained(hash, start, e, limit, h)
    ensures Displacement(hash, start, e, limit, h.core, Some(h.e))
  {}

  /** An element is dropped if and only if none of the first `limit` in hand finds a free slot. */
  lemma {:induction false} DroppedIffNoneFits<E>(hash: Hasher<E>, start: Core<E>, e: E, limit: nat, c: Core<E>,
                                                 dropped: Option<E>)
    requires start.Shaped() && Displacement(hash, start, e, limit, c, dropped)
    ensures dropped.Some? <==> NoneFits(hash, start, e, limit)
  {
    if dropped.None? {
      var k: nat :| k < limit && SettledAt(hash, start, e, c, k);
      var h := InHand(hash, start, e, k);
      var f: nat :| FirstFree(h.core, hash, h.e, f);
      assert !FindsNoRoom(hash, start, e, k);
    }
  }

  /** As long as none finds room, table and element in hand make up what was live and the new element. */
  lemma {:induction false} ChainCarries<E>(hash: Hasher<E>, start: Core<E>, e: E, k: nat, dflt: E)
    requires start.Shaped() && Carrying(start, e, start, e, true, hash, dflt) && NoneFits(hash, start, e, k)
    ensures var h := InHand(hash, start, e, k); Carrying(start, e, h.core, h.e, h.epoch, hash, dflt)
  {
    if k > 0 {
      var h := InHand(hash, start, e, k - 1);
      ChainCarries(hash, start, e, k - 1, dflt);
      assert FindsNoRoom(hash, start, e, k - 1);
      SwapCarries(hash, start, e, h, dflt);
    }
  }

  lemma {:induction false} SwapCarries<E>(hash: Hasher<E>, start: Core<E>, e: E, h: Hold<E>, dflt: E)
    requires Carrying(start, e, h.core, h.e, h.epoch, hash, dflt) && |start.table| == |h.core.table|
    requires h.core.collected == start.collected && NoFree(start, hash, h.e)
    ensures var h' := Swapped(hash, h); Carrying(start, e, h'.core, h'.e, h'.epoch, hash, dflt)
  {
    var loc := NextLoc(hash, |h.core.table|, h.e, h.loc);
    SameRoom(h.core, start, hash, h.e);
    assert IsLoc(hash, |h.core.table|, h.e, loc);
    DisplacedCarries(start, e, h.core, h.e, h.epoch, loc, hash, dflt);
  }

  /** So displacement inserts: the new element is live, and at most the dropped one is lost. */
  lemma {:induction false} DisplacementInserts<E>(hash: Hasher<E>, start: Core<E>, e: E, limit: nat, c: Core<E>,
                                                  dropped: Option<E>, dflt: E)
    requires start.Shaped() && Placed(start, hash, dflt) && NotInSlots(start, e, hash)
    requires Displacement(hash, start, e, limit, c, dropped)
    ensures InsertedInto(start, e, c, dropped, hash, dflt)
  {
    NotInSlotsNotInTable(start, e, hash, dflt);
    match dropped
    case None =>
      var k: nat :| k < limit && SettledAt(hash, start, e, c, k);
      ChainCarries(hash, start, e, k, dflt);
      SettledInserts(hash, start, e, InHand(hash, start, e, k), c, dflt);
    case Some(d) =>
      ChainCarries(hash, start, e, limit, dflt);
      DroppedInserts(start, e, c, d, InHand(hash, start, e, limit).epoch, hash, dflt);
  }

  lemma {:induction false} SettledInserts<E>(hash: Hasher<E>, start: Core<E>, e: E, h: Hold<E>, c: Core<E>, dflt: E)
    requires Carrying(start, e, h.core, h.e, h.epoch, hash, dflt) && PutFirstFree(hash, h.core, h.e, h.epoch, c)
    ensures InsertedInto(start, e, c, None, hash, dflt)
  {
    var f: nat :| FirstFree(h.core, hash, h.e, f) && c == Put(h.core, Loc(hash, |h.core.table|, h.e, f), h.e, h.epoch);
    var loc := Loc(hash, |h.core.table|, h.e, f);
    assert IsLoc(hash, |h.core.table|, h.e, loc);
    PutInserts(start, e, h.core, h.e, h.epoch, loc, hash, dflt);
  }

  /** If the element in the second slot of the new one has room elsewhere, both stay, when two turns are allowed. */
  lemma {:induction false} SecondTurnSettles<E>(hash: Hasher<E>, start: Core<E>, e: E, limit: nat, c: Core<E>,
                                                dropped: Option<E>)
    requires start.Shaped() && |start.table| < UINT32 && Displacement(hash, start, e, limit, c, dropped) && limit >= 2
    requires !NoFree(start, hash, start.table[Loc(hash, |start.table|, e, 1)])
    ensures dropped.None?
  {
    NextLocMovesOn(hash, |start.table|, e, INVALID);
    assert InHand(hash, start, e, 0) == Hold(start, e, true, INVALID);
    assert InHand(hash, start, e, 1).e == start.table[Loc(hash, |start.table|, e, 1)];
    assert !FindsNoRoom(hash, start, e, 1);
    DroppedIffNoneFits(hash, start, e, limit, c, dropped);
  }

  // ---------------------------------------------------------------- whole runs

  datatype Event<E> = Insertion(e: E, dropped: Option<E>) | Lookup(e: E, erase: bool)

  /** One call, by the contracts of Insert and Contains. */
  ghost predicate Step<E>(c: Core<E>, ev: Event<E>, d: Core<E>, hash: Hasher<E>, dflt: E, epochSize: nat)
    requires c.Shaped()
  {
    match ev
    case Insertion(e, dropped) => InsertedInto(Checked(c, epochSize), e, d, dropped, hash, dflt)
    case Lookup(e, erase) => d == c || (erase && Erased(c, d, e, dflt) && Placed(d, hash, dflt))
  }

  lemma StepKeeps<E>(c: Core<E>, ev: Event<E>, d: Core<E>, hash: Hasher<E>, dflt: E, epochSize: nat)
    requires Inv(c, hash, dflt, epochSize) && Step(c, ev, d, hash, dflt, epochSize)
    ensures Inv(d, hash, dflt, epochSize)
  {
    CheckedKeeps(c, hash, dflt, epochSize);
  }

  ghost predicate IsRun<E>(run: seq<Core<E>>, evs: seq<Event<E>>, hash: Hasher<E>, dflt: E, epochSize: nat) {
    && |run| == |evs| + 1 && (forall n :: 0 <= n < |run| ==> run[n].Shaped())
    && (forall n :: 0 <= n < |evs| ==> StepAt(run, evs, n, hash, dflt, epochSize))
  }

  ghost predicate StepAt<E>(run: seq<Core<E>>, evs: seq<Event<E>>, n: nat, hash: Hasher<E>, dflt: E, epochSize: nat)
    requires |run| == |evs| + 1 && n < |evs| && run[n].Shaped()
  {
    Step(run[n], evs[n], run[n + 1], hash, dflt, epochSize)
  }

  /** In no run of insertions and erasing lookups does the current epoch outgrow its bound. */
  lemma {:induction false} RunBounded<E>(run: seq<Core<E>>, evs: seq<Event<E>>, n: nat, hash: Hasher<E>, dflt: E,
                                         epochSize: nat)
    requires IsRun(run, evs, hash, dflt, epochSize) && n < |run|
    requires Inv(run[0], hash, dflt, epochSize)
    ensures Inv(run[n], hash, dflt, epochSize)
    ensures Load(run[n]) <= epochSize + Max(1, epochSize / 16)
  {
    if n > 0 {
      RunBounded(run, evs, n - 1, hash, dflt, epochSize);
      assert StepAt(run, evs, n - 1, hash, dflt, epochSize);
      StepKeeps(run[n - 1], evs[n - 1], run[n], hash, dflt, epochSize);
    }
  }

  /** The call neither erases e nor drops it, and no ageing collects it. */
  ghost predicate Spares<E>(c: Core<E>, ev: Event<E>, e: E, epochSize: nat)
    requires c.Shaped()
  {
    match ev
    case Insertion(_, dropped) => dropped != Some(e) && e in Live(Checked(c, epochSize))
    case Lookup(x, erase) => !(erase && x == e)
  }

  /** Every element stays live until it is erased, dropped or aged away, and so is found until then. */
  lemma {:induction false} RunRetains<E>(run: seq<Core<E>>, evs: seq<Event<E>>, n: nat, e: E, hash: Hasher<E>, dflt: E,
                                         epochSize: nat)
    requires IsRun(run, evs, hash, dflt, epochSize) && n < |run| && Inv(run[0], hash, dflt, epochSize)
    requires e in Live(run[0]) && forall m :: 0 <= m < n ==> Spares(run[m], evs[m], e, epochSize)
    ensures e in Live(run[n]) && !NotInSlots(run[n], e, hash)
  {
    RunBounded(run, evs, n, hash, dflt, epochSize);
    if n > 0 {
      RunRetains(run, evs, n - 1, e, hash, dflt, epochSize);
      assert StepAt(run, evs, n - 1, hash, dflt, epochSize);
      assert Spares(run[n - 1], evs[n - 1], e, epochSize);
    }
    LiveInSlots(run[n], e, hash, dflt);
  }

  // ---------------------------------------------------------------- how long elements stay

  function Insertions<E>(evs: seq<Event<E>>, n: nat): (k: nat)
    requires n <= |evs|
    ensures k <= n
  {
    if n == 0 then 0 else Insertions(evs, n - 1) + if evs[n - 1].Insertion? then 1 else 0
  }

  /** The element is of the current epoch, or the next ageing is at least `left` insertions away. */
  ghost predicate Lasts<E>(c: Core<E>, e: E, left: int)
    requires c.Shaped()
  {
    e in Young(c) || (e in Live(c) && left <= c.counter)
  }

  /** Nobody erases or drops the element. */
  predicate LeavesAlone<E(==)>(ev: Event<E>, e: E) {
    match ev
    case Insertion(_, dropped) => dropped != Some(e)
    case Lookup(x, erase) => !(erase && x == e)
  }

  lemma {:induction false} CheckedLasts<E>(c: Core<E>, e: E, left: int, hash: Hasher<E>, dflt: E, epochSize: nat)
    requires Inv(c, hash, dflt, epochSize) && Lasts(c, e, left) && 0 < left <= epochSize + 1
    ensures Lasts(Checked(c, epochSize), e, left - 1)
  {
    CheckedKeeps(c, hash, dflt, epochSize);
    var d := Checked(c, epochSize);
    if e in Young(c) {
      var i :| 0 <= i < |c.table| && !c.collected[i] && c.recent[i] && c.table[i] == e;
      if !(c.counter == 0 && Load(c) >= epochSize) { assert d.table[i] in Young(d); }
    }
  }

  lemma {:induction false} StepLasts<E>(c: Core<E>, ev: Event<E>, d: Core<E>, e: E, left: int, hash: Hasher<E>, dflt: E,
                                        epochSize: nat)
    requires Inv(c, hash, dflt, epochSize) && Step(c, ev, d, hash, dflt, epochSize) && d.Shaped() && LeavesAlone(ev, e)
    requires Lasts(c, e, left) && left <= epochSize + 1 && (ev.Insertion? ==> left > 0)
    ensures Lasts(d, e, if ev.Insertion? then left - 1 else left)
  {
    if ev.Insertion? {
      CheckedLasts(c, e, left, hash, dflt, epochSize);
      InsertionLasts(Checked(c, epochSize), ev.e, d, ev.dropped, e, left - 1, hash, dflt);
    } else if d != c {
      assert Erased(c, d, ev.e, dflt);
    }
  }

  lemma {:induction false} InsertionLasts<E>(c: Core<E>, added: E, d: Core<E>, dropped: Option<E>, e: E, left: int,
                                             hash: Hasher<E>, dflt: E)
    requires InsertedInto(c, added, d, dropped, hash, dflt) && dropped != Some(e) && Lasts(c, e, left)
    ensures Lasts(d, e, left)
  {
    assert e in Young(c) ==> e in Young(c) + {added};
    assert e in Live(c) ==> e in Live(c) + {added};
  }

  /**
   * An element of the current epoch that is neither erased nor dropped outlasts as many insertions as an epoch has
   * elements, and one more.
   */
  lemma {:induction false} RunLasts<E>(run: seq<Core<E>>, evs: seq<Event<E>>, n: nat, e: E, hash: Hasher<E>, dflt: E,
                                       epochSize: nat)
    requires IsRun(run, evs, hash, dflt, epochSize) && n < |run| && Inv(run[0], hash, dflt, epochSize)
    requires e in Young(run[0]) && (forall m :: 0 <= m < n ==> LeavesAlone(evs[m], e))
    requires Insertions(evs, n) <= epochSize + 1
    ensures Lasts(run[n], e, epochSize + 1 - Insertions(evs, n))
    ensures e in Live(run[n]) && !NotInSlots(run[n], e, hash)
  {
    RunBounded(run, evs, n, hash, dflt, epochSize);
    if n > 0 {
      RunLasts(run, evs, n - 1, e, hash, dflt, epochSize);
      RunBounded(run, evs, n - 1, hash, dflt, epochSize);
      assert StepAt(run, evs, n - 1, hash, dflt, epochSize);
      StepLasts(run[n - 1], evs[n - 1], run[n], e, epochSize + 1 - Insertions(evs, n - 1), hash, dflt, epochSize);
    }
    YoungIsLive(run[n], e);
    LiveInSlots(run[n], e, hash, dflt);
  }

  lemma {:induction false} YoungIsLive<E>(c: Core<E>, e: E)
    requires c.Shaped()
    ensures e in Young(c) ==> e in Live(c)
  {}

  lemma LiveInSlots<E>(c: Core<E>, e: E, hash: Hasher<E>, dflt: E)
    requires c.Shaped() && Placed(c, hash, dflt) && e in Live(c)
    ensures !NotInSlots(c, e, hash)
  {
    var i :| 0 <= i < |c.table| && !c.collected[i] && c.table[i] == e;
    assert IsLoc(hash, |c.table|, e, i);
  }

  // ---------------------------------------------------------------- the cache itself

  function Marks(mem: seq<bv8>, n: nat): (m: seq<bool>)
    requires n <= 8 * |mem|
    ensures |m| == n && forall i :: 0 <= i < n ==> m[i] == Bit(mem, i)
  {
    seq(n, i requires 0 <= i < n => Bit(mem, i))
  }

  /** std::find over the eight locations. */
  method FindLoc(locs: seq<nat>, loc: nat) returns (k: nat)
    ensures k <= |locs| && (k < |locs| ==> locs[k] == loc) && forall j :: 0 <= j < k ==> locs[j] != loc
  {
    k := 0;
    while k < |locs| && locs[k] != loc
      invariant k <= |locs| && forall j :: 0 <= j < k ==> locs[j] != loc
    {
      k := k + 1;
    }
  }

  class Cache<E(==)> {
    const hash: Hasher<E>
    const dflt: E
    const size: nat
    const depthLimit: nat
    const epochSize: nat
    const flags: BitPackedFlags
    var table: seq<E>
    var epochFlags: seq<bool>
    var epochHeuristicCounter: nat

    ghost predicate Ready()
      reads this, flags
    {
      size == Bits.Pow2(depthLimit) && depthLimit >= 1 && |table| == |epochFlags| == size <= 8 * |flags.mem|
    }

    ghost function Model(): (c: Core<E>)
      requires Ready()
      reads this, flags
      ensures c.Shaped()
    {
      Core(table, Marks(flags.mem, size), epochFlags, epochHeuristicCounter)
    }

    ghost predicate Valid()
      reads this, flags
    {
      Ready() && Inv(Model(), hash, dflt, epochSize)
    }

    /** setup, with the depth limit that the logarithm gives; 45 * size is computed modulo 2^32. */
    constructor (depthLimit: nat, hash: Hasher<E>, dflt: E)
      requires 1 <= depthLimit < 32
      ensures Valid() && fresh(flags) && Live(Model()) == {}
      ensures this.depthLimit == depthLimit && this.hash == hash && this.dflt == dflt && size == Bits.Pow2(depthLimit)
      ensures epochSize == Max(1, 45 * size % UINT32 / 100) && epochHeuristicCounter == epochSize
    {
      var n := Bits.Pow2(depthLimit);
      Bits.Pow2Small(depthLimit);
      this.depthLimit, this.hash, this.dflt := depthLimit, hash, dflt;
      size := n;
      epochSize := Max(1, 45 * n % UINT32 / 100);
      flags := new BitPackedFlags(n);
      table := seq(n, _ => dflt);
      epochFlags := seq(n, _ => false);
      epochHeuristicCounter := Max(1, 45 * n % UINT32 / 100);
      new;
      CurrentZero(Model(), size);
    }

    method ComputeHashes(e: E) returns (locs: seq<nat>)
      requires Ready()
      ensures AreLocs(locs, hash, size, e) && forall k :: 0 <= k < 8 ==> locs[k] == hash(e, k) % size
    {
      locs := [];
      for k := 0 to 8
        invariant |locs| == k && forall j :: 0 <= j < k ==> locs[j] == Loc(hash, size, e, j)
      {
        Bits.MaskIsMod(hash(e, k), depthLimit);
        locs := locs + [Bits.And(hash(e, k), size - 1)];
      }
    }

    method AllowErase(n: nat)
      requires Ready() && n < size
      modifies flags
      ensures Ready() && Model() == old(Model()).(collected := old(Model()).collected[n := true])
    {
      flags.BitSet(n);
    }

    method PleaseKeep(n: nat)
      requires Ready() && n < size
      modifies flags
      ensures Ready() && Model() == old(Model()).(collected := old(Model()).collected[n := false])
    {
      flags.BitUnset(n);
    }

    method EpochCheck()
      requires Ready()
      modifies this, flags
      ensures Ready() && Model() == Checked(old(Model()), epochSize)
    {
      if epochHeuristicCounter != 0 {
        epochHeuristicCounter := epochHeuristicCounter - 1;
        return;
      }
      var unused := CountUnused();
      if unused >= epochSize {
        Age();
        epochHeuristicCounter := epochSize;
      } else {
        epochHeuristicCounter := Max(1, Max(epochSize / 16, epochSize - unused));
      }
    }

    method CountUnused() returns (unused: nat)
      requires Ready()
      ensures unused == Load(Model())
    {
      unused := 0;
      for i := 0 to size
        invariant unused == Current(Model(), i)
      {
        var gone := flags.BitIsSet(i);
        unused := unused + if epochFlags[i] && !gone then 1 else 0;
      }
    }

    method Age()
      requires Ready()
      modifies this`epochFlags, flags
      ensures Ready() && forall i :: 0 <= i < size ==> !epochFlags[i]
      ensures forall i :: 0 <= i < size ==>
        Model().collected[i] == (old(Model()).collected[i] || !old(Model()).recent[i])
    {
      ghost var c := Model();
      for i := 0 to size
        invariant Ready()
        invariant forall j :: 0 <= j < i ==> !epochFlags[j] && Model().collected[j] == (c.collected[j] || !c.recent[j])
        invariant forall j :: i <= j < size ==> epochFlags[j] == c.recent[j] && Model().collected[j] == c.collected[j]
      {
        if epochFlags[i] {
          epochFlags := epochFlags[i := false];
        } else {
          AllowErase(i);
        }
      }
    }

    /** The first of the eight slots that holds e. */
    method FindSlot(e: E, locs: seq<nat>) returns (k: nat)
      requires Ready() && AreLocs(locs, hash, size, e)
      ensures k <= 8 && (k < 8 ==> table[locs[k]] == e)
      ensures forall j :: 0 <= j < k ==> table[Loc(hash, size, e, j)] != e
    {
      k := 0;
      while k < 8
        invariant k <= 8 && forall j :: 0 <= j < k ==> table[Loc(hash, size, e, j)] != e
      {
        if table[locs[k]] == e { return; }
        k := k + 1;
      }
    }

    /** The first of the eight slots that may be overwritten. */
    method FindFree(locs: seq<nat>) returns (k: nat)
      requires Ready() && |locs| == 8 && forall j :: 0 <= j < 8 ==> locs[j] < size
      ensures k <= 8 && (k < 8 ==> Model().collected[locs[k]])
      ensures forall j :: 0 <= j < k ==> !Model().collected[locs[j]]
    {
      k := 0;
      while k < 8
        invariant k <= 8 && forall j :: 0 <= j < k ==> !Model().collected[locs[j]]
      {
        var free := flags.BitIsSet(locs[k]);
        if free { return; }
        k := k + 1;
      }
    }

    method Place(loc: nat, e: E, epoch: bool)
      requires Ready() && loc < size
      modifies this`table, this`epochFlags, flags
      ensures Ready() && Model() == Put(old(Model()), loc, e, epoch)
    {
      table := table[loc := e];
      PleaseKeep(loc);
      epochFlags := epochFlags[loc := epoch];
    }

    method Keep(loc: nat)
      requires Ready() && loc < size
      modifies this`epochFlags, flags
      ensures Ready() && Model() == Kept(old(Model()), loc)
    {
      PleaseKeep(loc);
      epochFlags := epochFlags[loc := true];
    }

    method Swap(loc: nat, e: E, epoch: bool) returns (evicted: E, evictedEpoch: bool)
      requires Ready() && loc < size
      modifies this`table, this`epochFlags
      ensures Ready() && Model() == Displaced(old(Model()), loc, e, epoch)
      ensures evicted == old(table)[loc] && evictedEpoch == old(epochFlags)[loc]
    {
      evicted, evictedEpoch := table[loc], epochFlags[loc];
      table := table[loc := e];
      epochFlags := epochFlags[loc := epoch];
    }

    /**
     * One turn of the displacement loop: put e in its first free slot, or exchange it for the element in its next slot.
     */
    method PlaceOrSwap(e: E, epoch: bool, lastLoc: nat)
      returns (placed: bool, loc: nat, evicted: E, evictedEpoch: bool)
      requires Ready()
      modifies this`table, this`epochFlags, flags
      ensures Ready() && (placed ==> PutFirstFree(hash, old(Model()), e, epoch, Model()))
      ensures !placed ==> NoFree(old(Model()), hash, e)
      ensures !placed ==>
        Hold(Model(), evicted, evictedEpoch, loc) == Swapped(hash, Hold(old(Model()), e, epoch, lastLoc))
    {
      var locs := ComputeHashes(e);
      var free := FindFree(locs);
      FreeAmong(Model(), hash, e, locs, free);
      evicted, evictedEpoch := e, epoch;
      placed := free < 8;
      if placed {
        loc := locs[free];
        Place(loc, e, epoch);
      } else {
        var found := FindLoc(locs, lastLoc);
        FirstLocIs(hash, size, e, lastLoc, found, 0);
        loc := locs[(1 + found) % 8];
        evicted, evictedEpoch := Swap(loc, e, epoch);
      }
    }

    /** The k-th turn settles the element in hand, or the chain goes on. */
    method Turn(e: E, epoch: bool, lastLoc: nat, ghost start: Core<E>, ghost added: E, ghost k: nat, ghost c: Core<E>)
      returns (placed: bool, loc: nat, evicted: E, evictedEpoch: bool, ghost c': Core<E>)
      requires Ready() && c == Model() && k < depthLimit
      requires Chained(hash, start, added, k, Hold(c, e, epoch, lastLoc))
      modifies this`table, this`epochFlags, flags
      ensures Ready() && c' == Model()
      ensures if placed then Displacement(hash, start, added, depthLimit, c', None)
        else Chained(hash, start, added, k + 1, Hold(c', evicted, evictedEpoch, loc))
    {
      placed, loc, evicted, evictedEpoch := PlaceOrSwap(e, epoch, lastLoc);
      c' := Model();
      if placed {
        ChainSettles(hash, start, added, k, Hold(c, e, epoch, lastLoc), depthLimit, c');
      } else {
        ChainGrows(hash, start, added, k, Hold(c, e, epoch, lastLoc), Hold(c', evicted, evictedEpoch, loc));
      }
    }

    /** The displacement loop: one element is in hand at every turn, and the last one in hand is dropped. */
    method Displace(element: E) returns (ghost dropped: Option<E>)
      requires Ready()
      modifies this`table, this`epochFlags, flags
      ensures Ready() && Displacement(hash, old(Model()), element, depthLimit, Model(), dropped)
    {
      ghost var start, c := Model(), Model();
      var e, lastEpoch, depth := element, true, 0;
      var lastLoc: nat := INVALID;
      ChainStarts(hash, start, element);
      while depth < depthLimit
        invariant Ready() && c == Model() && 0 <= depth <= depthLimit
        invariant Chained(hash, start, element, depth, Hold(c, e, lastEpoch, lastLoc))
      {
        var placed;
        placed, lastLoc, e, lastEpoch, c := Turn(e, lastEpoch, lastLoc, start, element, depth, c);
        if placed { return None; }
        depth := depth + 1;
      }
      dropped := Some(e);
      ChainEnds(hash, start, element, Hold(c, e, lastEpoch, lastLoc), depthLimit);
    }

    /**
     * insert: after the epoch check an element that lies in one of its slots is renewed there.  Any other is put in by
     * displacement, and an element is dropped only if none of those in hand finds a free slot.
     */
    method Insert(e: E) returns (ghost dropped: Option<E>)
      requires Valid()
      modifies this, flags
      ensures Valid()
      ensures InsertedInto(Checked(old(Model()), epochSize), e, Model(), dropped, hash, dflt)
      ensures var start := Checked(old(Model()), epochSize);
        if NotInSlots(start, e, hash) then Displacement(hash, start, e, depthLimit, Model(), dropped)
        else dropped == None && RenewedIn(start, e, hash, Model())
    {
      CheckedKeeps(Model(), hash, dflt, epochSize);
      EpochCheck();
      ghost var start := Model();
      var locs := ComputeHashes(e);
      var at := FindSlot(e, locs);
      if at < 8 {
        assert IsLoc(hash, size, e, locs[at]);
        KeptInserts(start, e, locs[at], hash, dflt);
        Keep(locs[at]);
        assert Model() == Kept(start, Loc(hash, size, e, at));
        return None;
      }
      dropped := Displace(e);
      DisplacementInserts(hash, start, e, depthLimit, Model(), dropped, dflt);
    }

    /** contains finds every live element; with erase it gives up the slot, but not the element in it. */
    method Contains(e: E, erase: bool) returns (found: bool)
      requires Valid()
      modifies flags
      ensures Valid() && table == old(table)
      ensures e in Live(old(Model())) ==> found
      ensures found <==> !NotInSlots(old(Model()), e, hash)
      ensures e != dflt ==> found == (e in table)
      ensures if found && erase then Erased(old(Model()), Model(), e, dflt) else Model() == old(Model())
    {
      var locs := ComputeHashes(e);
      var at := FindSlot(e, locs);
      found := at < 8;
      if found {
        if erase {
          ErasedKeeps(Model(), locs[at], hash, dflt, epochSize);
          AllowErase(locs[at]);
        }
      } else {
        NotInSlotsNotLive(Model(), e, hash, dflt);
      }
    }
  }
}
