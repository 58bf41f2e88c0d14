/**
 * The UTXO cache: a write-back overlay of flagged entries over a parent view.
 * Coins that own their storage and coins that point into another cache are
 * both plain values here.
 */
module Coins {
  import opened Wrappers

  /** COutPoint, known by a number. */
  type OutPoint = nat

  /** The largest value of the script size limit. */
  const NO_LIMIT := 0xFFFF_FFFF_FFFF_FFFF

  const SPENT_AMOUNT := -1

  datatype Coin = Coin(amount: int, script: seq<bv8>, scriptSize: nat, height: int, coinbase: bool, confiscation: bool)
  {
    predicate IsSpent() { amount == SPENT_AMOUNT }
    predicate HasScript() { scriptSize == |script| }
    function WithoutScript(): Coin { this.(script := []) }
  }

  /** CoinImpl() */
  const EMPTY_COIN := Coin(SPENT_AMOUNT, [], 0, 0, false, false)

  datatype Entry = Entry(coin: Coin, dirty: bool, isFresh: bool)

  type CoinsMap = map<OutPoint, Entry>

  /** A set of unspent outputs. */
  type Utxo = map<OutPoint, Coin>

  /** What a view answers: a coin, and whether the answer owns its storage. */
  datatype Answer = Answer(coin: Coin, owner: bool)

  type View = (OutPoint, nat) -> Option<Answer>

  // ---------------------------------------------------------------- meaning

  /** `c` is the coin `full`, possibly without its script. */
  predicate Matches(c: Coin, full: Coin) {
    c == full || c == full.WithoutScript()
  }

  predicate GoodUtxo(u: Utxo) {
    forall o :: o in u ==> !u[o].IsSpent() && u[o].HasScript() && u[o].scriptSize <= NO_LIMIT
  }

  /** A view answers according to a set of unspent outputs; the script may be missing when it exceeds the limit. */
  ghost predicate Shows(view: View, u: Utxo) {
    forall o, limit :: AnswerOk(view(o, limit), u, o, limit)
  }

  predicate AnswerOk(a: Option<Answer>, u: Utxo, o: OutPoint, limit: nat) {
    match a
    case None => o !in u
    case Some(a) =>
      if a.coin.IsSpent() then o !in u && a.coin == EMPTY_COIN
      else o in u && Matches(a.coin, u[o]) && (u[o].scriptSize <= limit ==> a.coin == u[o])
  }

  /** The coin an overlay shows at an outpoint; spent is the same as absent. */
  function Lookup(cache: CoinsMap, u: Utxo, o: OutPoint): Option<Coin> {
    if o in cache then
      if cache[o].coin.IsSpent() then None
      else if cache[o].coin.HasScript() || o !in u then Some(cache[o].coin)
      else Some(u[o])
    else if o in u then Some(u[o])
    else None
  }

  /**
   * The flags mean what they say: FRESH entries are absent in the parent, clean
   * ones agree with it, and only clean ones lack their script.
   */
  predicate EntryOk(e: Entry, u: Utxo, o: OutPoint) {
    && (e.isFresh ==> o !in u)
    && (!e.dirty ==> if e.coin.IsSpent() then o !in u else o in u && Matches(e.coin, u[o]))
    && (e.dirty && !e.coin.IsSpent() ==> e.coin.HasScript() && e.coin.scriptSize <= NO_LIMIT)
    && (e.coin.IsSpent() ==> e.coin.HasScript())
  }

  predicate Inv(cache: CoinsMap, u: Utxo) {
    GoodUtxo(u) && forall o :: o in cache ==> EntryOk(cache[o], u, o)
  }

  // ---------------------------------------------------------------- operations of the store

  /** CoinsStore::AddCoin for a coin read from the parent. */
  function Cached(cache: CoinsMap, o: OutPoint, c: Coin): CoinsMap {
    cache[o := Entry(c, false, c.IsSpent())]
  }

  /** CoinsStore::AddCoin for a new coin: whether it throws. */
  predicate Refuses(cache: CoinsMap, o: OutPoint, overwrite: bool) {
    !overwrite && o in cache && !cache[o].coin.IsSpent()
  }

  function Added(cache: CoinsMap, o: OutPoint, c: Coin, overwrite: bool): CoinsMap {
    var e := if o in cache then cache[o] else Entry(EMPTY_COIN, false, false);
    cache[o := Entry(c, true, e.isFresh || (!overwrite && !e.dirty))]
  }

  /** CoinsStore::SpendCoin. */
  function Spent(cache: CoinsMap, o: OutPoint): CoinsMap {
    if o !in cache then cache
    else if cache[o].isFresh then cache - {o}
    else cache[o := Entry(EMPTY_COIN, true, false)]
  }

  /** An entry without flags can be dropped. */
  function Uncached(cache: CoinsMap, o: OutPoint): CoinsMap {
    if o in cache && !cache[o].dirty && !cache[o].isFresh then cache - {o} else cache
  }

  function UncachedAll(cache: CoinsMap, outpoints: seq<OutPoint>, n: nat): CoinsMap
    requires n <= |outpoints|
  {
    if n == 0 then cache else Uncached(UncachedAll(cache, outpoints, n - 1), outpoints[n - 1])
  }

  /** Dropping entries changes nothing that is shown, and drops only what was asked for and has no flags. */
  lemma {:induction false} UncachedRefines(cache: CoinsMap, u: Utxo, outpoints: seq<OutPoint>, n: nat)
    requires Inv(cache, u) && n <= |outpoints|
    ensures var cache' := UncachedAll(cache, outpoints, n);
      && Inv(cache', u) && (forall o :: Lookup(cache', u, o) == Lookup(cache, u, o))
      && (forall o :: o in cache' ==> o in cache && cache'[o] == cache[o])
      && (forall o :: o in cache ==> (o !in cache' <==> o in outpoints[..n] && !cache[o].dirty && !cache[o].isFresh))
  {
    if n > 0 {
      UncachedRefines(cache, u, outpoints, n - 1);
      assert outpoints[..n] == outpoints[..n - 1] + [outpoints[n - 1]];
    }
  }

  /** Reading through changes nothing. */
  lemma CachedRefines(cache: CoinsMap, u: Utxo, o: OutPoint, c: Coin)
    requires Inv(cache, u) && o !in cache
    requires if c.IsSpent() then o !in u && c.HasScript() else o in u && Matches(c, u[o])
    ensures Inv(Cached(cache, o, c), u)
    ensures forall x :: Lookup(Cached(cache, o, c), u, x) == Lookup(cache, u, x)
  {}

  /** Spending removes exactly the one output, whether the entry is erased or marked. */
  lemma SpentRefines(cache: CoinsMap, u: Utxo, o: OutPoint)
    requires Inv(cache, u) && (o in cache || o !in u)
    ensures Inv(Spent(cache, o), u)
    ensures Lookup(Spent(cache, o), u, o) == None
    ensures forall x :: x != o ==> Lookup(Spent(cache, o), u, x) == Lookup(cache, u, x)
  {}

  /** The caller has loaded the output before adding it, or allows an overwrite. */
  predicate MayAdd(cache: CoinsMap, u: Utxo, o: OutPoint, overwrite: bool) {
    overwrite || o in cache || o !in u
  }

  /** Adding sets exactly the one output, and refuses exactly to replace an unspent one unasked. */
  lemma AddedRefines(cache: CoinsMap, u: Utxo, o: OutPoint, c: Coin, overwrite: bool)
    requires Inv(cache, u) && !c.IsSpent() && c.HasScript() && c.scriptSize <= NO_LIMIT
    requires MayAdd(cache, u, o, overwrite)
    ensures Refuses(cache, o, overwrite) <==> !overwrite && Lookup(cache, u, o).Some?
    ensures !Refuses(cache, o, overwrite) ==> Inv(Added(cache, o, c, overwrite), u)
    ensures Lookup(Added(cache, o, c, overwrite), u, o) == Some(c)
    ensures forall x :: x != o ==> Lookup(Added(cache, o, c, overwrite), u, x) == Lookup(cache, u, x)
  {}

  /**
   * The contract of AddCoin is exact: without it the new entry is wrongly FRESH,
   * and spending it brings the parent's coin back.
   */
  lemma MayAddIsExact(cache: CoinsMap, u: Utxo, o: OutPoint, c: Coin, overwrite: bool)
    requires Inv(cache, u) && !c.IsSpent() && c.HasScript() && c.scriptSize <= NO_LIMIT && !Refuses(cache, o, overwrite)
    ensures Inv(Added(cache, o, c, overwrite), u) <==> MayAdd(cache, u, o, overwrite)
    ensures Lookup(Spent(Added(cache, o, c, overwrite), o), u, o) == None <==> MayAdd(cache, u, o, overwrite)
  {
    if MayAdd(cache, u, o, overwrite) {
      AddedRefines(cache, u, o, c, overwrite);
      SpentRefines(Added(cache, o, c, overwrite), u, o);
    } else {
      assert !EntryOk(Added(cache, o, c, overwrite)[o], u, o);
    }
  }

  // ---------------------------------------------------------------- writing a child into its parent

  /** The set of unspent outputs an overlay shows. */
  ghost predicate Means(cache: CoinsMap, u: Utxo, shown: Utxo) {
    forall o :: Lookup(cache, u, o) == if o in shown then Some(shown[o]) else None
  }

  /** "FRESH flag misapplied": the child takes an output for absent that the parent holds unspent. */
  predicate Misapplied(parent: CoinsMap, o: OutPoint, e: Entry) {
    o in parent && e.isFresh && !parent[o].coin.IsSpent()
  }

  /** The parent after one dirty entry of the child. */
  function MergeEntry(parent: CoinsMap, o: OutPoint, e: Entry): CoinsMap {
    if o !in parent then
      if e.isFresh && e.coin.IsSpent() then parent else parent[o := Entry(e.coin, true, e.isFresh)]
    else if parent[o].isFresh && e.coin.IsSpent() then parent - {o}
    else parent[o := Entry(e.coin, true, parent[o].isFresh)]
  }

  predicate SameAt(a: CoinsMap, b: CoinsMap, o: OutPoint) {
    (o in a <==> o in b) && (o in a ==> a[o] == b[o])
  }

  /** The parent at one outpoint when the entries of the child outside `rest` have been written. */
  function WrittenAt(parent: CoinsMap, child: CoinsMap, rest: CoinsMap, o: OutPoint): CoinsMap {
    if o in child && o !in rest && child[o].dirty then MergeEntry(parent, o, child[o]) else parent
  }

  /** `merged` is the parent with every dirty entry of the child written into it, each at its own outpoint. */
  ghost predicate IsMerge(parent: CoinsMap, child: CoinsMap, merged: CoinsMap) {
    forall o :: SameAt(merged, WrittenAt(parent, child, map[], o), o)
  }

  /** The child's flags are right, so none is misapplied. */
  lemma NoneMisapplied(parent: CoinsMap, g: Utxo, child: CoinsMap, p: Utxo, o: OutPoint)
    requires Means(parent, g, p) && Inv(child, p) && o in child
    ensures !Misapplied(parent, o, child[o])
  {
    assert Lookup(parent, g, o) == if o in p then Some(p[o]) else None;
  }

  /**
   * Writing the child back makes the parent show what the child showed, and the
   * parent's own flags stay right with respect to the grandparent.
   */
  lemma MergeRefines(parent: CoinsMap, g: Utxo, child: CoinsMap, p: Utxo, merged: CoinsMap)
    requires Inv(parent, g) && Means(parent, g, p) && Inv(child, p) && IsMerge(parent, child, merged)
    ensures Inv(merged, g)
    ensures forall o :: Lookup(merged, g, o) == Lookup(child, p, o)
  {
    forall o ensures Lookup(merged, g, o) == Lookup(child, p, o) && (o in merged ==> EntryOk(merged[o], g, o)) {
      MergeRefinesAt(parent, g, child, p, merged, o);
    }
  }

  lemma MergeRefinesAt(parent: CoinsMap, g: Utxo, child: CoinsMap, p: Utxo, merged: CoinsMap, o: OutPoint)
    requires Inv(parent, g) && Means(parent, g, p) && Inv(child, p) && IsMerge(parent, child, merged)
    ensures Lookup(merged, g, o) == Lookup(child, p, o) && (o in merged ==> EntryOk(merged[o], g, o))
  {
    assert Lookup(parent, g, o) == if o in p then Some(p[o]) else None;
    assert SameAt(merged, WrittenAt(parent, child, map[], o), o);
  }

  // ---------------------------------------------------------------- writing to the database

  /** What flushing one entry does to the database. */
  function FlushEntry(db: Utxo, o: OutPoint, e: Entry): Utxo {
    if !e.dirty then db else if e.coin.IsSpent() then db - {o} else db[o := e.coin]
  }

  /** CoinsDB::DBBatchWrite: the database then holds what the cache showed. */
  method FlushToDatabase(db: Utxo, mapCoins: CoinsMap) returns (db': Utxo)
    requires Inv(mapCoins, db)
    ensures GoodUtxo(db') && Means(mapCoins, db, db')
  {
    db' := db;
    var todo := mapCoins.Keys;
    while todo != {}
      invariant todo <= mapCoins.Keys
      invariant forall o :: o in todo ==> (o in db' <==> o in db) && (o in db ==> db'[o] == db[o])
      invariant forall o :: o !in todo ==> Lookup(mapCoins, db, o) == if o in db' then Some(db'[o]) else None
      invariant GoodUtxo(db')
      decreases |todo|
    {
      var o :| o in todo;
      var e := mapCoins[o];
      assert e.dirty && !e.coin.IsSpent() ==> e.coin.HasScript();
      db' := FlushEntry(db', o, e);
      todo := todo - {o};
    }
  }

  // ---------------------------------------------------------------- the store

  class CoinsStore {
    var cacheCoins: CoinsMap

    constructor ()
      ensures cacheCoins == map[]
    {
      cacheCoins := map[];
    }

    function FetchCoin(o: OutPoint): Option<Coin>
      reads this
    {
      if o in cacheCoins then Some(cacheCoins[o].coin) else None
    }

    /** AddCoin for a coin read from the parent; the outpoint must not be cached yet. */
    method AddCached(o: OutPoint, c: Coin)
      requires o !in cacheCoins
      modifies this
      ensures cacheCoins == Cached(old(cacheCoins), o, c)
    {
      cacheCoins := cacheCoins[o := Entry(c, false, false)];
      if cacheCoins[o].coin.IsSpent() {
        cacheCoins := cacheCoins[o := cacheCoins[o].(isFresh := true)];
      }
    }

    /** AddCoin for a new coin; `Err` is "Adding new coin that replaces non-pruned entry". */
    method AddCoin(o: OutPoint, c: Coin, possibleOverwrite: bool) returns (r: Result<(), ()>)
      modifies this
      ensures r.Err? <==> Refuses(old(cacheCoins), o, possibleOverwrite)
      ensures cacheCoins == if r.Err? then old(cacheCoins) else Added(old(cacheCoins), o, c, possibleOverwrite)
    {
      var inserted := o !in cacheCoins;
      if inserted { cacheCoins := cacheCoins[o := Entry(EMPTY_COIN, false, false)]; }
      var isFresh := false;
      if !possibleOverwrite {
        if !cacheCoins[o].coin.IsSpent() { return Err(()); }
        isFresh := !cacheCoins[o].dirty;
      }
      cacheCoins := cacheCoins[o := Entry(c, true, cacheCoins[o].isFresh || isFresh)];
      r := Ok(());
    }

    method SpendCoin(o: OutPoint) returns (found: bool)
      modifies this
      ensures cacheCoins == Spent(old(cacheCoins), o) && found == (o in old(cacheCoins))
    {
      if o !in cacheCoins { return false; }
      if cacheCoins[o].isFresh {
        cacheCoins := cacheCoins - {o};
      } else {
        cacheCoins := cacheCoins[o := cacheCoins[o].(dirty := true)];
        cacheCoins := cacheCoins[o := cacheCoins[o].(coin := EMPTY_COIN)];
      }
      found := true;
    }

    /** Uncache. */
    method Uncache(outpoints: seq<OutPoint>)
      modifies this
      ensures cacheCoins == UncachedAll(old(cacheCoins), outpoints, |outpoints|)
    {
      for i := 0 to |outpoints|
        invariant cacheCoins == UncachedAll(old(cacheCoins), outpoints, i)
      {
        var o := outpoints[i];
        if o in cacheCoins && !cacheCoins[o].dirty && !cacheCoins[o].isFresh {
          cacheCoins := cacheCoins - {o};
        }
      }
    }

    /** BatchWrite throws exactly when some FRESH flag of the child is misapplied; otherwise it merges the child. */
    method BatchWrite(mapCoins: CoinsMap) returns (r: Result<(), ()>)
      modifies this
      ensures r.Ok? <==> forall o :: o in mapCoins && mapCoins[o].dirty ==> !Misapplied(old(cacheCoins), o, mapCoins[o])
      ensures r.Ok? ==> IsMerge(old(cacheCoins), mapCoins, cacheCoins)
    {
      var rest := mapCoins;
      forall o ensures SameAt(cacheCoins, WrittenAt(old(cacheCoins), mapCoins, rest, o), o) {}
      while rest != map[]
        invariant forall o :: o in rest ==> o in mapCoins && rest[o] == mapCoins[o]
        invariant forall o :: o in mapCoins && o !in rest && mapCoins[o].dirty ==>
          !Misapplied(old(cacheCoins), o, mapCoins[o])
        invariant forall o :: SameAt(cacheCoins, WrittenAt(old(cacheCoins), mapCoins, rest, o), o)
        decreases |rest|
      {
        var o :| o in rest;
        var it := rest[o];
        ghost var before, was := cacheCoins, rest;
        assert SameAt(before, WrittenAt(old(cacheCoins), mapCoins, was, o), o);
        if it.dirty {
          if o !in cacheCoins {
            if !(it.isFresh && it.coin.IsSpent()) {
              cacheCoins := cacheCoins[o := Entry(it.coin, true, it.isFresh)];
            }
          } else {
            if it.isFresh && !cacheCoins[o].coin.IsSpent() { return Err(()); }
            if cacheCoins[o].isFresh && it.coin.IsSpent() {
              cacheCoins := cacheCoins - {o};
            } else {
              cacheCoins := cacheCoins[o := Entry(it.coin, true, cacheCoins[o].isFresh)];
            }
          }
        }
        rest := rest - {o};
        forall x ensures SameAt(cacheCoins, WrittenAt(old(cacheCoins), mapCoins, rest, x), x) {
          assert SameAt(before, WrittenAt(old(cacheCoins), mapCoins, was, x), x);
        }
      }
      r := Ok(());
    }
  }

  // ---------------------------------------------------------------- a shard: a store over a view

  function ScriptLimit(requiresScript: bool): nat { if requiresScript then NO_LIMIT else 0 }

  /** Shard::GetCoin: what it answers, and the cache it leaves behind. */
  function Fetch(view: View, cache: CoinsMap, o: OutPoint, requiresScript: bool): (Option<Coin>, CoinsMap) {
    if o in cache && (cache[o].coin.IsSpent() || cache[o].coin.HasScript()) then (Some(cache[o].coin), cache)
    else if o in cache && !requiresScript then (Some(cache[o].coin.WithoutScript()), cache)
    else
      match view(o, ScriptLimit(requiresScript))
      case None => (None, cache)
      case Some(a) =>
        (Some(a.coin),
         if o in cache then cache else Cached(cache, o, if a.owner then a.coin.WithoutScript() else a.coin))
  }

  /** The answer to a read: the coin shown, with its script when that was asked for, or a spent coin, or nothing. */
  predicate Tells(r: Option<Coin>, shown: Option<Coin>, requiresScript: bool) {
    if r.Some? && !r.value.IsSpent() then
      shown.Some? && Matches(r.value, shown.value) && (requiresScript ==> r.value == shown.value)
    else
      shown == None && (r.Some? ==> r.value.HasScript())
  }

  /** Reads tell the truth, change nothing that is shown, and leave the output loaded. */
  lemma FetchRefines(view: View, u: Utxo, cache: CoinsMap, o: OutPoint, requiresScript: bool)
    requires Shows(view, u) && Inv(cache, u)
    ensures var (r, cache') := Fetch(view, cache, o, requiresScript);
      && Tells(r, Lookup(cache, u, o), requiresScript)
      && Inv(cache', u) && (forall x :: Lookup(cache', u, x) == Lookup(cache, u, x))
      && (o in cache' || (r == None && o !in u)) && (r.Some? ==> o in cache')
  {
    assert AnswerOk(view(o, ScriptLimit(requiresScript)), u, o, ScriptLimit(requiresScript));
    var (r, cache') := Fetch(view, cache, o, requiresScript);
    if cache' != cache {
      CachedRefines(cache, u, o, cache'[o].coin);
    }
  }

  /** Shard::SpendCoin: whether something was found, the coin to move out, and the cache. */
  function SpendFetched(view: View, cache: CoinsMap, o: OutPoint, moveOut: bool): (bool, Option<Coin>, CoinsMap) {
    var (r, cache') := Fetch(view, cache, o, moveOut);
    if r.None? then (false, None, cache') else (true, if moveOut then r else None, Spent(cache', o))
  }

  /**
   * What SpendCoin answers about an output: a shown one is found, and moved out whole; otherwise only a spent coin
   * can be.
   */
  predicate TellsSpent(ok: bool, moved: Option<Coin>, shown: Option<Coin>, moveOut: bool) {
    && (shown.Some? ==> ok && moved == if moveOut then shown else None)
    && (shown.None? ==> moved.None? || moved.value.IsSpent())
  }

  lemma SpendFetchedRefines(view: View, u: Utxo, cache: CoinsMap, o: OutPoint, moveOut: bool)
    requires Shows(view, u) && Inv(cache, u)
    ensures var (ok, moved, cache') := SpendFetched(view, cache, o, moveOut);
      && Inv(cache', u) && Lookup(cache', u, o) == None
      && (forall x :: x != o ==> Lookup(cache', u, x) == Lookup(cache, u, x))
      && TellsSpent(ok, moved, Lookup(cache, u, o), moveOut)
      && (ok <==> o in cache || view(o, ScriptLimit(moveOut)).Some?)
  {
    FetchRefines(view, u, cache, o, moveOut);
    SpentRefines(Fetch(view, cache, o, moveOut).1, u, o);
  }

  class Shard {
    const view: View
    const isUnspendable: (seq<bv8>, bool) -> bool
    const mCache: CoinsStore

    constructor (view: View, isUnspendable: (seq<bv8>, bool) -> bool)
      ensures this.view == view && this.isUnspendable == isUnspendable && fresh(mCache) && mCache.cacheCoins == map[]
    {
      this.view, this.isUnspendable := view, isUnspendable;
      mCache := new CoinsStore();
    }

    /** Shard::GetCoin(outpoint, requiresScript). */
    method GetCoinImpl(o: OutPoint, requiresScript: bool) returns (r: Option<Coin>)
      modifies mCache
      ensures (r, mCache.cacheCoins) == Fetch(view, old(mCache.cacheCoins), o, requiresScript)
    {
      var fromCache := mCache.FetchCoin(o);
      if fromCache.Some? {
        var c := fromCache.value;
        if c.IsSpent() || c.HasScript() {
          return fromCache;
        } else if !requiresScript {
          return Some(Coin(c.amount, [], c.scriptSize, c.height, c.coinbase, c.confiscation));
        }
      }
      var maxScriptSize := if requiresScript then NO_LIMIT else 0;
      var fromView := view(o, maxScriptSize);
      if fromView.Some? && fromCache.None? {
        var c := fromView.value.coin;
        if fromView.value.owner {
          mCache.AddCached(o, Coin(c.amount, [], c.scriptSize, c.height, c.coinbase, c.confiscation));
        } else {
          mCache.AddCached(o, c);
        }
      }
      r := if fromView.Some? then Some(fromView.value.coin) else None;
    }

    /** HaveCoin says whether the output is shown. */
    method HaveCoin(o: OutPoint, ghost u: Utxo) returns (have: bool)
      requires Shows(view, u) && Inv(mCache.cacheCoins, u)
      modifies mCache
      ensures have == Lookup(old(mCache.cacheCoins), u, o).Some?
      ensures Inv(mCache.cacheCoins, u)
      ensures forall x :: Lookup(mCache.cacheCoins, u, x) == Lookup(old(mCache.cacheCoins), u, x)
    {
      FetchRefines(view, u, mCache.cacheCoins, o, false);
      var coin := GetCoinImpl(o, false);
      have := coin.Some? && !coin.value.IsSpent();
    }

    /** GetCoinWithScript: the coin has its script, so the assertion holds. */
    method GetCoinWithScript(o: OutPoint, ghost u: Utxo) returns (r: Option<Coin>)
      requires Shows(view, u) && Inv(mCache.cacheCoins, u)
      modifies mCache
      ensures r.Some? && !r.value.IsSpent() ==> Some(r.value) == Lookup(old(mCache.cacheCoins), u, o)
      ensures r == None || r.value.IsSpent() ==> Lookup(old(mCache.cacheCoins), u, o) == None
      ensures Inv(mCache.cacheCoins, u)
      ensures forall x :: Lookup(mCache.cacheCoins, u, x) == Lookup(old(mCache.cacheCoins), u, x)
    {
      FetchRefines(view, u, mCache.cacheCoins, o, true);
      r := GetCoinImpl(o, true);
      if r.Some? { assert r.value.HasScript(); }
    }

    /** AddCoin, under the contract that the output has been loaded or may be overwritten. */
    method AddCoin(o: OutPoint, coin: Coin, possibleOverwrite: bool, genesisActivationHeight: int,
                   ghost u: Utxo) returns (r: Result<(), ()>)
      requires Inv(mCache.cacheCoins, u) && MayAdd(mCache.cacheCoins, u, o, possibleOverwrite)
      requires !coin.IsSpent() && coin.HasScript() && coin.scriptSize <= NO_LIMIT
      modifies mCache
      ensures Inv(mCache.cacheCoins, u)
      ensures var unspendable := isUnspendable(coin.script, coin.height >= genesisActivationHeight);
        var shown := Lookup(old(mCache.cacheCoins), u, o);
        && (r.Err? <==> !unspendable && !possibleOverwrite && shown.Some?)
        && Lookup(mCache.cacheCoins, u, o) == if unspendable || r.Err? then shown else Some(coin)
      ensures forall x :: x != o ==> Lookup(mCache.cacheCoins, u, x) == Lookup(old(mCache.cacheCoins), u, x)
    {
      if isUnspendable(coin.script, coin.height >= genesisActivationHeight) { return Ok(()); }
      AddedRefines(mCache.cacheCoins, u, o, coin, possibleOverwrite);
      r := mCache.AddCoin(o, coin, possibleOverwrite);
    }

    /** SpendCoin: the output is gone, nothing else changes, and the coin spent can be moved out with its script. */
    method SpendCoin(o: OutPoint, moveOut: bool, ghost u: Utxo) returns (ok: bool, moved: Option<Coin>)
      requires Shows(view, u) && Inv(mCache.cacheCoins, u)
      modifies mCache
      ensures (ok, moved, mCache.cacheCoins) == SpendFetched(view, old(mCache.cacheCoins), o, moveOut)
      ensures Inv(mCache.cacheCoins, u) && Lookup(mCache.cacheCoins, u, o) == None
      ensures forall x :: x != o ==> Lookup(mCache.cacheCoins, u, x) == Lookup(old(mCache.cacheCoins), u, x)
      ensures TellsSpent(ok, moved, Lookup(old(mCache.cacheCoins), u, o), moveOut)
    {
      FetchRefines(view, u, mCache.cacheCoins, o, moveOut);
      SpendFetchedRefines(view, u, mCache.cacheCoins, o, moveOut);
      var coin := GetCoinImpl(o, moveOut);
      if coin.None? { return false, None; }
      moved := if moveOut then coin else None;
      ok := mCache.SpendCoin(o);
    }
  }

  // ---------------------------------------------------------------- whole runs

  datatype Op =
    | Get(o: OutPoint, requiresScript: bool)
    | Have(o: OutPoint)
    | Add(o: OutPoint, coin: Coin, overwrite: bool, unspendable: bool)
    | Spend(o: OutPoint, moveOut: bool)
    | Forget(o: OutPoint)   // Uncache

  datatype Reply =
    | Got(coin: Option<Coin>)
    | Had(have: bool)
    | Refused(refused: bool)
    | Took(ok: bool, moved: Option<Coin>)
    | Done

  /** What an operation does to the cache, and what it answers. */
  function Step(view: View, cache: CoinsMap, op: Op): (Reply, CoinsMap) {
    match op
    case Get(o, requiresScript) =>
      var (r, cache') := Fetch(view, cache, o, requiresScript);
      (Got(r), cache')
    case Have(o) =>
      var (r, cache') := Fetch(view, cache, o, false);
      (Had(r.Some? && !r.value.IsSpent()), cache')
    case Add(o, coin, overwrite, unspendable) =>
      if unspendable then (Refused(false), cache)
      else if Refuses(cache, o, overwrite) then (Refused(true), cache)
      else (Refused(false), Added(cache, o, coin, overwrite))
    case Spend(o, moveOut) =>
      var (ok, moved, cache') := SpendFetched(view, cache, o, moveOut);
      (Took(ok, moved), cache')
    case Forget(o) => (Done, Uncached(cache, o))
  }

  /** What an operation does to a plain map of unspent outputs. */
  function StepMap(shown: Utxo, op: Op): Utxo {
    match op
    case Get(_, _) => shown
    case Have(_) => shown
    case Add(o, coin, overwrite, unspendable) =>
      if unspendable || (!overwrite && o in shown) then shown else shown[o := coin]
    case Spend(o, _) => shown - {o}
    case Forget(_) => shown
  }

  function At(shown: Utxo, o: OutPoint): Option<Coin> { if o in shown then Some(shown[o]) else None }

  /** The answer is right about the plain map. */
  predicate Right(reply: Reply, shown: Utxo, op: Op) {
    match op
    case Get(o, requiresScript) => reply.Got? && Tells(reply.coin, At(shown, o), requiresScript)
    case Have(o) => reply == Had(o in shown)
    case Add(o, _, overwrite, unspendable) => reply == Refused(!unspendable && !overwrite && o in shown)
    case Spend(o, moveOut) => reply.Took? && TellsSpent(reply.ok, reply.moved, At(shown, o), moveOut)
    case Forget(_) => reply == Done
  }

  /** A coin that can be added at all. */
  predicate GoodCoin(c: Coin) { !c.IsSpent() && c.HasScript() && c.scriptSize <= NO_LIMIT }

  /** The operation reads an output through the cache. */
  predicate Reads(op: Op, o: OutPoint) { (op.Get? || op.Have? || op.Spend?) && op.o == o }

  /** What has been read stays loaded, or absent in the parent, until it is dropped from the cache. */
  predicate Known(cache: CoinsMap, u: Utxo, o: OutPoint) { o in cache || o !in u }

  lemma {:induction false} KnownKept(view: View, u: Utxo, cache: CoinsMap, op: Op, o: OutPoint)
    requires Shows(view, u) && Inv(cache, u)
    requires Reads(op, o) || (Known(cache, u, o) && op != Forget(o))
    ensures Known(Step(view, cache, op).1, u, o)
  {
    if op.Get? || op.Have? || op.Spend? {
      FetchRefines(view, u, cache, op.o, if op.Get? then op.requiresScript else op.Spend? && op.moveOut);
    }
  }

  lemma {:induction false} StepRefines(view: View, u: Utxo, cache: CoinsMap, shown: Utxo, op: Op)
    requires Shows(view, u) && Inv(cache, u) && Means(cache, u, shown)
    requires op.Add? && !op.unspendable ==> MayAdd(cache, u, op.o, op.overwrite) && GoodCoin(op.coin)
    ensures var (reply, cache') := Step(view, cache, op);
      Right(reply, shown, op) && Inv(cache', u) && Means(cache', u, StepMap(shown, op))
  {
    assert Lookup(cache, u, op.o) == At(shown, op.o);
    match op
    case Get(o, requiresScript) => FetchRefines(view, u, cache, o, requiresScript);
    case Have(o) => FetchRefines(view, u, cache, o, false);
    case Add(o, coin, overwrite, unspendable) => if !unspendable { AddedRefines(cache, u, o, coin, overwrite); }
    case Spend(o, moveOut) => SpendFetchedRefines(view, u, cache, o, moveOut);
    case Forget(o) =>
  }

  function RunCache(view: View, ops: seq<Op>, n: nat): CoinsMap
    requires n <= |ops|
  {
    if n == 0 then map[] else Step(view, RunCache(view, ops, n - 1), ops[n - 1]).1
  }

  function RunMap(u: Utxo, ops: seq<Op>, n: nat): Utxo
    requires n <= |ops|
  {
    if n == 0 then u else StepMap(RunMap(u, ops, n - 1), ops[n - 1])
  }

  /** Before the n-th operation the output has been read, and not dropped from the cache since. */
  ghost predicate ReadBefore(ops: seq<Op>, n: nat, o: OutPoint)
    requires n <= |ops|
  {
    n > 0 && ops[n - 1] != Forget(o) && (Reads(ops[n - 1], o) || ReadBefore(ops, n - 1, o))
  }

  /** The contract of AddCoin: what is added and may not overwrite has been read before. */
  ghost predicate KeepsContract(ops: seq<Op>) {
    forall n :: 0 <= n < |ops| && ops[n].Add? && !ops[n].unspendable ==>
      GoodCoin(ops[n].coin) && (ops[n].overwrite || ReadBefore(ops, n, ops[n].o))
  }

  /** After n operations the cache is well formed and shows what the plain map holds. */
  ghost predicate Follows(view: View, u: Utxo, ops: seq<Op>, n: nat) {
    n <= |ops| && Inv(RunCache(view, ops, n), u) && Means(RunCache(view, ops, n), u, RunMap(u, ops, n))
  }

  /** The answer of the n-th operation is right. */
  ghost predicate AnswersRight(view: View, u: Utxo, ops: seq<Op>, n: nat) {
    n < |ops| && Right(Step(view, RunCache(view, ops, n), ops[n]).0, RunMap(u, ops, n), ops[n])
  }

  lemma {:induction false} ReadIsKnown(view: View, u: Utxo, ops: seq<Op>, n: nat, o: OutPoint)
    requires Shows(view, u) && n <= |ops| && (forall k :: 0 <= k < n ==> Follows(view, u, ops, k))
    requires ReadBefore(ops, n, o)
    ensures Known(RunCache(view, ops, n), u, o)
  {
    if !Reads(ops[n - 1], o) { ReadIsKnown(view, u, ops, n - 1, o); }
    assert Follows(view, u, ops, n - 1);
    KnownKept(view, u, RunCache(view, ops, n - 1), ops[n - 1], o);
  }

  lemma {:induction false} RunStep(view: View, u: Utxo, ops: seq<Op>, n: nat)
    requires Shows(view, u) && KeepsContract(ops) && n < |ops| && forall k :: 0 <= k <= n ==> Follows(view, u, ops, k)
    ensures Follows(view, u, ops, n + 1) && AnswersRight(view, u, ops, n)
  {
    var cache, op := RunCache(view, ops, n), ops[n];
    assert Follows(view, u, ops, n);
    if op.Add? && !op.unspendable && !op.overwrite { ReadIsKnown(view, u, ops, n, op.o); }
    StepRefines(view, u, cache, RunMap(u, ops, n), op);
  }

  /**
   * Over every sequence of operations that keeps the contract, the shard behaves as a plain map of unspent outputs: it
   * shows the same outputs, and every answer on the way is right.
   */
  lemma {:induction false} RunRefines(view: View, u: Utxo, ops: seq<Op>, n: nat)
    requires Shows(view, u) && GoodUtxo(u) && KeepsContract(ops) && n <= |ops|
    ensures forall k :: 0 <= k <= n ==> Follows(view, u, ops, k)
    ensures forall k :: 0 <= k < n ==> AnswersRight(view, u, ops, k)
  {
    if n > 0 {
      RunRefines(view, u, ops, n - 1);
      RunStep(view, u, ops, n - 1);
    }
  }

  /** Without the contract a coin that was added and spent can come back as the parent's. */
  lemma {:induction false} UnreadAddMisleads(view: View, u: Utxo, o: OutPoint, c: Coin)
    requires Shows(view, u) && GoodUtxo(u) && o in u && GoodCoin(c)
    ensures var ops := [Add(o, c, false, false), Spend(o, false), Have(o)];
      && !KeepsContract(ops) && o !in RunMap(u, ops, 2)
      && Step(view, RunCache(view, ops, 2), ops[2]).0 == Had(true)
  {
    var ops := [Add(o, c, false, false), Spend(o, false), Have(o)];
    assert !ReadBefore(ops, 0, ops[0].o);
    var cache0: CoinsMap := map[];
    assert RunCache(view, ops, 0) == cache0;
    var cache1 := RunCache(view, ops, 1);
    assert cache1 == map[o := Entry(c, true, true)];
    var cache2 := RunCache(view, ops, 2);
    assert cache2 == map[];
    assert AnswerOk(view(o, 0), u, o, 0);
    assert RunMap(u, ops, 1) == RunMap(u, ops, 0) == u;
  }
}
