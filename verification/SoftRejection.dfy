// Soft rejection of blocks, src/block_index.h and src/validation.cpp: a mark on a block also covers the next blocks
// above it, on every branch, each for one block less.
module SoftRejection {
  import opened BlockIndex
  import opened Descendants
  import opened Wrappers

  type Marks = map<Block, int>

  /** A container of blocks that holds every block's parent. */
  ghost predicate IsIndex(index: seq<Block>) {
    && Distinct(index) && (forall b :: b in index ==> Linked(b))
    && forall b :: b in index && b.pprev != null ==> b.pprev in index
  }

  ghost predicate Covers(m: Marks, index: seq<Block>) { forall b :: b in index ==> b in m }

  ghost predicate ByParent(m: Marks, b: Block) { b.pprev != null && b.pprev in m && m[b.pprev] > 0 }

  /** Marked, and not because of its parent. */
  ghost predicate Explicit(m: Marks, b: Block) { b in m && m[b] >= 0 && !ByParent(m, b) }

  /** A block whose parent is marked for one block or more is marked for one less; the genesis block is never marked. */
  ghost predicate Consistent(m: Marks, index: seq<Block>) {
    && Covers(m, index)
    && (forall b :: b in index ==>
         m[b] >= -1 && (b.pprev == null ==> m[b] == -1) && (ByParent(m, b) ==> m[b] == m[b.pprev] - 1))
  }

  // ---------------------------------------------------------------- how far up an update reaches

  const TWO31: int := 0x8000_0000

  /** The sum of two 32-bit numbers, wrapped round where it does not fit. */
  function Sum32(a: int, b: int): (r: int)
    requires 0 <= a < TWO31 && -1 <= b < TWO31
    ensures a + b < TWO31 ==> r == a + b
    ensures a + b >= TWO31 ==> r < 0
  {
    if a + b >= TWO31 then a + b - 2 * TWO31 else a + b
  }

  /** The last height that is updated for a mark of num blocks: none above the block itself when the sum wraps round. */
  function Reach(b: Block, num: int): (r: int)
    requires b.nHeight < TWO31 && -1 <= num < TWO31
    ensures b.nHeight + num >= TWO31 ==> r == b.nHeight
    ensures b.nHeight + num < TWO31 ==> r == if num < 0 then b.nHeight else b.nHeight + num
  {
    if Sum32(b.nHeight, num) < b.nHeight then b.nHeight else Sum32(b.nHeight, num)
  }

  /** Heights and marks are 32-bit numbers. */
  ghost predicate Fits(m: Marks, index: seq<Block>) {
    Covers(m, index) && forall b :: b in index ==> b.nHeight < TWO31 && m[b] < TWO31
  }

  /** No mark reaches beyond the largest height. */
  ghost predicate Within(m: Marks, index: seq<Block>) {
    Covers(m, index) && forall b :: b in index ==> b.nHeight < TWO31 && b.nHeight + m[b] < TWO31
  }

  ghost predicate Childless(index: seq<Block>, b: Block) { forall c :: c in index ==> c.pprev != b }

  /** What a mark of num on a block implies d blocks above it. */
  function Implied(num: int, d: int): int { if num >= d then num - d else -1 }

  ghost predicate InRegion(b: Block, root: Block, maxHeight: int)
    requires Linked(b)
  {
    IsAncestor(root, b) && b.nHeight <= maxHeight
  }

  /** The marks after the region of a root has been updated. */
  ghost predicate Updated(m: Marks, m': Marks, index: seq<Block>, root: Block, num: int, maxHeight: int) {
    && (forall b :: b in index ==> Linked(b)) && Covers(m, index) && Covers(m', index)
    && forall b :: b in index ==>
      m'[b] == if InRegion(b, root, maxHeight) then Implied(num, b.nHeight - root.nHeight) else m[b]
  }

  ghost predicate NoneExplicit(m: Marks, index: seq<Block>, root: Block, maxHeight: int)
    requires forall b :: b in index ==> Linked(b)
  {
    forall b :: b in index && b != root && InRegion(b, root, maxHeight) ==> !Explicit(m, b)
  }

  lemma ParentInRegion(index: seq<Block>, b: Block, root: Block, maxHeight: int)
    requires IsIndex(index) && b in index && root in index && InRegion(b, root, maxHeight) && b != root
    ensures b.pprev != null && b.pprev in index && InRegion(b.pprev, root, maxHeight)
    ensures b.pprev.nHeight == b.nHeight - 1
  {
  }

  /** With no other marks in the region, what is there is what the root's mark implies. */
  lemma {:induction false} RegionIsImplied(m: Marks, index: seq<Block>, root: Block, maxHeight: int, b: Block)
    requires IsIndex(index) && Consistent(m, index) && root in index && NoneExplicit(m, index, root, maxHeight)
    requires b in index && InRegion(b, root, maxHeight)
    ensures m[b] == Implied(m[root], b.nHeight - root.nHeight)
    decreases b.nHeight
  {
    if b != root {
      ParentInRegion(index, b, root, maxHeight);
      RegionIsImplied(m, index, root, maxHeight, b.pprev);
    }
  }

  /**
   * A mark reaches no further than its number of blocks, so the region never holds another explicit mark up to there.
   */
  lemma {:induction false} ReachIsImplied(m: Marks, index: seq<Block>, root: Block, b: Block)
    requires IsIndex(index) && Consistent(m, index) && root in index
    requires b in index && InRegion(b, root, root.nHeight + m[root])
    ensures m[b] == m[root] - (b.nHeight - root.nHeight) && (b != root ==> ByParent(m, b))
    decreases b.nHeight
  {
    if b != root {
      ParentInRegion(index, b, root, root.nHeight + m[root]);
      ReachIsImplied(m, index, root, b.pprev);
    }
  }

  /** Updating the region, far enough up for the mark that was there and the new one, keeps all marks consistent. */
  lemma UpdateKeeps(m: Marks, m': Marks, index: seq<Block>, root: Block, num: int, maxHeight: int)
    requires IsIndex(index) && Consistent(m, index) && root in index && root.pprev != null && !ByParent(m, root)
    requires num >= -1
    requires Updated(m, m', index, root, num, maxHeight) && maxHeight >= root.nHeight + num && maxHeight >= root.nHeight
    ensures Consistent(m', index)
  {
    forall b | b in index
      ensures m'[b] >= -1 && (b.pprev == null ==> m'[b] == -1) && (ByParent(m', b) ==> m'[b] == m'[b.pprev] - 1)
    {
      if b.pprev != null { ParentCases(index, b, root, maxHeight); }
    }
  }

  /** A block outside the region has its parent outside too, or lies just above the top. */
  lemma ParentCases(index: seq<Block>, b: Block, root: Block, maxHeight: int)
    requires IsIndex(index) && b in index && root in index && b.pprev != null
    ensures InRegion(b, root, maxHeight) && b != root ==> InRegion(b.pprev, root, maxHeight)
    ensures b == root ==> !InRegion(b.pprev, root, maxHeight)
    ensures !InRegion(b, root, maxHeight) && InRegion(b.pprev, root, maxHeight) ==> b.pprev.nHeight == maxHeight
  {
  }

  /** It also leaves every explicit mark but the root's as it was. */
  lemma UpdateKeepsExplicit(m: Marks, m': Marks, index: seq<Block>, root: Block, num: int, maxHeight: int, b: Block)
    requires IsIndex(index) && Consistent(m, index) && root in index && root.pprev != null && !ByParent(m, root)
    requires num >= -1
    requires Updated(m, m', index, root, num, maxHeight)
    requires maxHeight >= root.nHeight + num && maxHeight >= root.nHeight + m[root] && maxHeight >= root.nHeight
    requires NoneExplicit(m, index, root, maxHeight) && b in index && b != root
    ensures Explicit(m', b) <==> Explicit(m, b)
  {
    if b.pprev != null {
      ParentCases(index, b, root, maxHeight);
      if InRegion(b.pprev, root, maxHeight) { RegionIsImplied(m, index, root, maxHeight, b.pprev); }
    }
  }

  /** Updating the region with the mark that was there puts back what was there. */
  lemma UpdateBack(m: Marks, m': Marks, m'': Marks, index: seq<Block>, root: Block, num: int, maxHeight: int)
    requires IsIndex(index) && Consistent(m, index) && root in index && NoneExplicit(m, index, root, maxHeight)
    requires Updated(m, m', index, root, num, maxHeight) && Updated(m', m'', index, root, m[root], maxHeight)
    ensures forall b :: b in index ==> m''[b] == m[b]
  {
    forall b | b in index ensures m''[b] == m[b] {
      if InRegion(b, root, maxHeight) { RegionIsImplied(m, index, root, maxHeight, b); }
    }
  }

  // ---------------------------------------------------------------- on the blocks themselves

  ghost function MarksOf(index: seq<Block>): (m: Marks)
    reads index
    ensures forall b :: b in index ==> b in m && m[b] == b.nSoftRejected
  {
    map b | b in index :: b.nSoftRejected
  }

  /** A new block keeps all marks consistent, whatever chain it extends. */
  method ExtendIndex(index: seq<Block>, prev: Block?, nTime: nat) returns (b: Block)
    requires IsIndex(index) && Consistent(MarksOf(index), index)
    requires prev != null ==> prev in index && WellBuilt(prev)
    ensures fresh(b) && b.pprev == prev && WellBuilt(b)
    ensures IsIndex(index + [b]) && Consistent(MarksOf(index + [b]), index + [b])
    ensures ExtendedBy(old(MarksOf(index)), MarksOf(index + [b]), index, b)
  {
    b := new Block(prev, nTime);
    ghost var m, m' := MarksOf(index), MarksOf(index + [b]);
    forall c | c in index + [b]
      ensures m'[c] >= -1 && (c.pprev == null ==> m'[c] == -1) && (ByParent(m', c) ==> m'[c] == m'[c.pprev] - 1)
    {
      if c != b { assert m'[c] == m[c]; }
    }
  }

  /** The first k items of a traversal have their new marks, and the other blocks their old ones. */
  ghost predicate UpdatedUpTo(m: Marks, m': Marks, index: seq<Block>, t: Tree, order: seq<nat>, k: nat, num: int) {
    && Covers(m, index) && Covers(m', index) && |t.blocks| > 0 && k <= |order|
    && (forall j :: 0 <= j < k ==> MarkedAt(m', t, order, j, num))
    && (forall b :: b in index && b in m && m'[b] != m[b] ==> exists j :: 0 <= j < k && IsItem(t, order, j, b))
  }

  ghost predicate IsItem(t: Tree, order: seq<nat>, j: nat, b: Block) {
    j < |order| && order[j] < |t.blocks| && t.blocks[order[j]] == b
  }

  ghost predicate MarkedAt(m: Marks, t: Tree, order: seq<nat>, j: nat, num: int)
    requires |t.blocks| > 0
  {
    j < |order| && order[j] < |t.blocks| &&
    var b := t.blocks[order[j]]; b in m && m[b] == Implied(num, b.nHeight - t.blocks[0].nHeight)
  }

  /** Take the mark of the k-th item of a traversal from its parent. */
  method MarkItem(t: Tree, item: nat, ghost m: Marks, ghost index: seq<Block>, ghost order: seq<nat>, ghost k: nat,
                  ghost num: int)
    requires Good(t) && IsOrder(t, order) && 0 < k < |order| && order[k] == item && Distinct(t.blocks)
    requires (forall b :: b in t.blocks ==> b in index) && UpdatedUpTo(m, MarksOf(index), index, t, order, k, num)
    modifies t.blocks[item]
    ensures UpdatedUpTo(m, MarksOf(index), index, t, order, k + 1, num)
  {
    ghost var before := MarksOf(index);
    VisitStep(m, before, index, t, order, k, num);
    t.blocks[item].SetSoftRejectedFromParent();
    VisitDone(m, before, MarksOf(index), index, t, order, k, num);
  }

  /** The loop over the items after the root. */
  method MarkItems(t: Tree, ghost m: Marks, ghost index: seq<Block>, ghost order: seq<nat>, ghost num: int)
    requires Good(t) && IsOrder(t, order) && Follows(t, order, None) && Distinct(t.blocks) && |t.blocks| > 0
    requires (forall b :: b in t.blocks ==> b in index) && UpdatedUpTo(m, MarksOf(index), index, t, order, 1, num)
    modifies index
    ensures UpdatedUpTo(m, MarksOf(index), index, t, order, |order|, num)
  {
    ghost var k := 0;
    assert FollowedBy(t, order, k, None);
    var item := Next(t, 0);
    while item != None
      invariant k < |order| && item == if k + 1 == |order| then None else Some(order[k + 1])
      invariant UpdatedUpTo(m, MarksOf(index), index, t, order, k + 1, num)
      decreases |order| - k
    {
      k := k + 1;
      assert t.blocks[item.value] in t.blocks;
      MarkItem(t, item.value, m, index, order, k, num);
      assert FollowedBy(t, order, k, None);
      item := Next(t, item.value);
    }
  }

  /** SetRootSoftRejectedForNL: mark the root, then every descendant in the tree from its parent. */
  method SetRootSoftRejectedFor(t: Tree, num: int, ghost index: seq<Block>, ghost maxHeight: int)
    requires |t.blocks| > 0 && IsIndex(index) && Closed(index, t.blocks[0]) && Built(t, index, t.blocks[0], maxHeight)
    requires num >= -1 && maxHeight >= t.blocks[0].nHeight
    requires t.blocks[0].pprev != null && !t.blocks[0].SoftRejectedBecauseOfParent()
    modifies index
    ensures Updated(old(MarksOf(index)), MarksOf(index), index, t.blocks[0], num, maxHeight)
  {
    ghost var root, m := t.blocks[0], MarksOf(index);
    TreeBounded(t, index, root, maxHeight);
    ghost var order := TraversalVisitsAll(t, index, root, maxHeight, maxHeight);
    t.blocks[0].SetSoftRejectedFor(num);
    VisitDone(m, m, MarksOf(index), index, t, order, 0, num);
    MarkItems(t, m, index, order, num);
    AllVisited(m, MarksOf(index), index, t, order, num, maxHeight);
  }

  lemma TreeBounded(t: Tree, index: seq<Block>, root: Block, maxHeight: int)
    requires Built(t, index, root, maxHeight) && maxHeight >= root.nHeight
    ensures BoundedBy(t, maxHeight)
  {
    forall i | 0 <= i < |t.blocks| ensures H(t, i) <= maxHeight { assert t.blocks[i] in t.blocks; }
  }

  /** An item's parent was visited before it, so its mark is already new. */
  lemma VisitStep(m: Marks, m': Marks, index: seq<Block>, t: Tree, order: seq<nat>, k: nat, num: int)
    requires Good(t) && IsOrder(t, order) && 0 < k < |order| && UpdatedUpTo(m, m', index, t, order, k, num)
    requires forall b :: b in t.blocks ==> b in index
    ensures var b := t.blocks[order[k]];
      b in index && b.pprev != null && b.pprev in m' && m'[b.pprev] == Implied(num, b.nHeight - 1 - t.blocks[0].nHeight)
  {
    var i := order[k];
    assert ParentBefore(t, order, 0, k);
    assert ParentOk(t, i) && t.blocks[i] in t.blocks;
    if t.parent[i] == Some(0) {
      assert MarkedAt(m', t, order, 0, num);
    } else {
      var j :| 0 <= j < k && t.parent[i] == Some(order[j]);
      assert MarkedAt(m', t, order, j, num);
    }
  }

  lemma VisitDone(m: Marks, before: Marks, after: Marks, index: seq<Block>, t: Tree, order: seq<nat>, k: nat, num: int)
    requires Good(t) && IsOrder(t, order) && k < |order| && UpdatedUpTo(m, before, index, t, order, k, num)
    requires Distinct(t.blocks)
    requires Covers(after, index) && forall b :: b in index && b != t.blocks[order[k]] ==> after[b] == before[b]
    requires forall b :: b in t.blocks ==> b in index
    requires var b := t.blocks[order[k]]; after[b] == Implied(num, b.nHeight - t.blocks[0].nHeight)
    ensures UpdatedUpTo(m, after, index, t, order, k + 1, num)
  {
    forall j | 0 <= j < k + 1 ensures MarkedAt(after, t, order, j, num) {
      assert t.blocks[order[j]] in t.blocks;
      if j < k { assert MarkedAt(before, t, order, j, num); }
    }
    forall b | b in index && b in m && after[b] != m[b] ensures exists j :: 0 <= j < k + 1 && IsItem(t, order, j, b) {
      if b == t.blocks[order[k]] {
        assert IsItem(t, order, k, b);
      } else {
        var j :| 0 <= j < k && IsItem(t, order, j, b);
      }
    }
  }

  lemma AllVisited(m: Marks, m': Marks, index: seq<Block>, t: Tree, order: seq<nat>, num: int, maxHeight: int)
    requires |t.blocks| > 0 && IsIndex(index) && Closed(index, t.blocks[0]) && Built(t, index, t.blocks[0], maxHeight)
    requires maxHeight >= t.blocks[0].nHeight && UpdatedUpTo(m, m', index, t, order, |order|, num)
    requires forall i: nat :: i in order <==> i < |t.blocks| && IsAncestor(t.blocks[0], t.blocks[i])
    ensures Updated(m, m', index, t.blocks[0], num, maxHeight)
  {
    var root := t.blocks[0];
    forall b | b in index
      ensures m'[b] == if InRegion(b, root, maxHeight) then Implied(num, b.nHeight - root.nHeight) else m[b]
    {
      if InRegion(b, root, maxHeight) {
        assert b in t.blocks;
        var i :| 0 <= i < |t.blocks| && t.blocks[i] == b;
        assert i in order;
        var j :| 0 <= j < |order| && order[j] == i;
        assert MarkedAt(m', t, order, j, num);
      }
    }
  }

  // ---------------------------------------------------------------- rejecting and accepting

  lemma IndexIsClosed(index: seq<Block>, root: Block)
    requires IsIndex(index) && root in index
    ensures Closed(index, root)
  {
  }

  /** An item other than the root, with its parent, both in the index. */
  ghost predicate Inner(t: Tree, index: seq<Block>, order: seq<nat>, k: nat) {
    && k < |order| && order[k] < |t.blocks|
    && t.blocks[order[k]] in index && t.blocks[order[k]].pprev != null && t.blocks[order[k]].pprev in index
  }

  /** The loop over the items after the root that looks for a mark of an item's own. */
  method AnyMarked(t: Tree, index: seq<Block>, ghost order: seq<nat>) returns (found: bool)
    requires Good(t) && |t.blocks| > 0 && IsOrder(t, order) && Follows(t, order, None)
    requires forall k :: 1 <= k < |order| ==> Inner(t, index, order, k)
    ensures found <==> exists k :: 1 <= k < |order| && Explicit(MarksOf(index), t.blocks[order[k]])
  {
    ghost var m, k := MarksOf(index), 0;
    assert FollowedBy(t, order, k, None);
    var item := Next(t, 0);
    while item != None
      invariant k < |order| && item == if k + 1 == |order| then None else Some(order[k + 1])
      invariant forall j :: 1 <= j <= k ==> !Explicit(m, t.blocks[order[j]])
      decreases |order| - k
    {
      k := k + 1;
      assert Inner(t, index, order, k);
      var b := t.blocks[item.value];
      if b.IsSoftRejected() && !b.SoftRejectedBecauseOfParent() { return true; }
      assert FollowedBy(t, order, k, None);
      item := Next(t, item.value);
    }
    found := false;
  }

  /** Whether any item but the root carries a mark of its own. */
  method AnyExplicit(t: Tree, index: seq<Block>, ghost maxHeight: int, ghost m: Marks) returns (found: bool)
    requires m == MarksOf(index)
    requires |t.blocks| > 0 && IsIndex(index) && Closed(index, t.blocks[0]) && Built(t, index, t.blocks[0], maxHeight)
    requires maxHeight >= t.blocks[0].nHeight
    ensures found <==> !NoneExplicit(m, index, t.blocks[0], maxHeight)
  {
    TreeBounded(t, index, t.blocks[0], maxHeight);
    ghost var order := TraversalVisitsAll(t, index, t.blocks[0], maxHeight, maxHeight);
    forall k | 1 <= k < |order| ensures Inner(t, index, order, k) { ItemInRegion(t, index, order, k, maxHeight); }
    found := AnyMarked(t, index, order);
    MarkedIsExplicit(m, t, index, order, maxHeight);
  }

  lemma MarkedIsExplicit(m: Marks, t: Tree, index: seq<Block>, order: seq<nat>, maxHeight: int)
    requires |t.blocks| > 0 && IsIndex(index) && Closed(index, t.blocks[0]) && Built(t, index, t.blocks[0], maxHeight)
    requires IsOrder(t, order) && maxHeight >= t.blocks[0].nHeight
    requires forall i: nat :: i in order <==> i < |t.blocks| && IsAncestor(t.blocks[0], t.blocks[i])
    ensures NoneExplicit(m, index, t.blocks[0], maxHeight) <==> forall k :: 1 <= k < |order| ==>
      !Explicit(m, t.blocks[order[k]])
  {
    var root := t.blocks[0];
    if forall k :: 1 <= k < |order| ==> !Explicit(m, t.blocks[order[k]]) {
      forall b | b in index && b != root && InRegion(b, root, maxHeight) ensures !Explicit(m, b) {
        assert b in t.blocks;
        var i :| 0 <= i < |t.blocks| && t.blocks[i] == b;
        assert i in order;
      }
    }
    if NoneExplicit(m, index, root, maxHeight) {
      forall k | 1 <= k < |order|
        ensures !Explicit(m, t.blocks[order[k]])
      {
        ItemInRegion(t, index, order, k, maxHeight);
      }
    }
  }

  lemma ItemInRegion(t: Tree, index: seq<Block>, order: seq<nat>, k: nat, maxHeight: int)
    requires |t.blocks| > 0 && IsIndex(index) && Closed(index, t.blocks[0]) && Built(t, index, t.blocks[0], maxHeight)
    requires IsOrder(t, order) && 0 < k < |order| && maxHeight >= t.blocks[0].nHeight
    requires forall i: nat :: i in order <==> i < |t.blocks| && IsAncestor(t.blocks[0], t.blocks[i])
    ensures var b := t.blocks[order[k]];
      b in index && b != t.blocks[0] && b.pprev != null && b.pprev in index && InRegion(b, t.blocks[0], maxHeight)
  {
    var b := t.blocks[order[k]];
    assert order[k] in order && order[k] != order[0] && b in t.blocks;
  }

  /** When a block may be marked for a number of blocks. */
  ghost predicate MayReject(m: Marks, index: seq<Block>, b: Block, num: int)
    requires (forall x :: x in index ==> Linked(x)) && b in m && b.nHeight < TWO31 && 0 <= num < TWO31
  {
    && b.nHeight > 0 && (m[b] >= 0 ==> !ByParent(m, b) && num > m[b])
    && NoneExplicit(m, index, b, Reach(b, num))
  }

  /** Only the mark of one block, and what it implies, has changed. */
  ghost predicate Remarked(m: Marks, m': Marks, index: seq<Block>, root: Block, num: int) {
    && root in m' && m'[root] == num && Consistent(m', index)
    && forall b :: b in index && b != root ==> (Explicit(m', b) <==> Explicit(m, b))
  }

  /** A tree up to a height below the root's holds the root alone. */
  lemma BuiltToReach(t: Tree, index: seq<Block>, root: Block, num: int)
    requires root.nHeight < TWO31 && -1 <= num < TWO31 && Built(t, index, root, Sum32(root.nHeight, num))
    ensures Built(t, index, root, Reach(root, num))
  {
    forall b | b in index ensures InRange(b, root, Sum32(root.nHeight, num)) <==> InRange(b, root, Reach(root, num)) {}
  }

  /**
   * SoftRejectBlockNL: refuses exactly where it should, and changes nothing then. When disconnecting tips fails, the
   * marks are put back as they were. Otherwise the marks are as they should be if and only if the sum of height and
   * number of blocks fits 32 bits, or no block is known that extends this one.
   */
  method SoftRejectBlock(index: seq<Block>, b: Block, numBlocks: int, disconnectOk: bool) returns (ok: bool)
    requires IsIndex(index) && b in index && Consistent(MarksOf(index), index) && Fits(MarksOf(index), index)
    requires 0 <= numBlocks < TWO31
    modifies index
    ensures ok <==> disconnectOk && MayReject(old(MarksOf(index)), index, b, numBlocks)
    ensures ok ==> Updated(old(MarksOf(index)), MarksOf(index), index, b, numBlocks, Reach(b, numBlocks))
    ensures ok ==> (Remarked(old(MarksOf(index)), MarksOf(index), index, b, numBlocks) <==>
                    b.nHeight + numBlocks < TWO31 || Childless(index, b))
    ensures !ok ==> forall x :: x in index ==> x.nSoftRejected == old(x.nSoftRejected)
  {
    ghost var m := MarksOf(index);
    var refused := Refuses(index, b, numBlocks, m);
    if refused { return false; }
    var maxHeight := Sum32(b.nHeight, numBlocks);
    IndexIsClosed(index, b);
    var blocks := Build(b, index, maxHeight);
    BuiltToReach(blocks, index, b, numBlocks);
    var found := AnyExplicit(blocks, index, Reach(b, numBlocks), m);
    if found { return false; }
    ok := Reject(index, b, blocks, numBlocks, disconnectOk, m, Reach(b, numBlocks));
    if ok { RemarkedIff(m, MarksOf(index), index, b, numBlocks, numBlocks); }
  }

  /** The genesis block, a block marked because of its parent, and a mark that would not grow, are refused. */
  method Refuses(index: seq<Block>, b: Block, numBlocks: int, ghost m: Marks) returns (refused: bool)
    requires IsIndex(index) && b in index && m == MarksOf(index) && Consistent(m, index)
    ensures !refused <==> b.nHeight > 0 && (m[b] >= 0 ==> !ByParent(m, b) && numBlocks > m[b])
    ensures !refused ==> b.pprev != null && !ByParent(m, b)
  {
    if b.nHeight == 0 { return true; }
    if b.IsSoftRejected() {
      if b.SoftRejectedBecauseOfParent() { return true; }
      if numBlocks <= b.nSoftRejected { return true; }
    }
    refused := false;
  }

  /** Marking, and putting the marks back when disconnecting tips fails. */
  method Reject(index: seq<Block>, b: Block, blocks: Tree, numBlocks: int, disconnectOk: bool,
                ghost m: Marks, ghost maxHeight: int) returns (ok: bool)
    requires IsIndex(index) && b in index && m == MarksOf(index) && Consistent(m, index) && numBlocks >= 0
    requires b.pprev != null && !ByParent(m, b) && NoneExplicit(m, index, b, maxHeight) && maxHeight >= b.nHeight
    requires Closed(index, b) && |blocks.blocks| > 0 && blocks.blocks[0] == b && Built(blocks, index, b, maxHeight)
    modifies index
    ensures ok == disconnectOk && (ok ==> Updated(m, MarksOf(index), index, b, numBlocks, maxHeight))
    ensures !ok ==> forall x :: x in index ==> x.nSoftRejected == old(x.nSoftRejected)
  {
    var before := b.nSoftRejected;
    SetRootSoftRejectedFor(blocks, numBlocks, index, maxHeight);
    ghost var m' := MarksOf(index);
    ParentCases(index, b, b, maxHeight);
    ok := disconnectOk;
    if !ok {
      SetRootSoftRejectedFor(blocks, before, index, maxHeight);
      UpdateBack(m, m', MarksOf(index), index, b, numBlocks, maxHeight);
    }
  }

  lemma RemarkedIs(m: Marks, m': Marks, index: seq<Block>, root: Block, num: int, maxHeight: int)
    requires IsIndex(index) && Consistent(m, index) && root in index && root.pprev != null && !ByParent(m, root)
    requires num >= -1
    requires Updated(m, m', index, root, num, maxHeight) && NoneExplicit(m, index, root, maxHeight)
    requires maxHeight >= root.nHeight + num && maxHeight >= root.nHeight + m[root] && maxHeight >= root.nHeight
    ensures Remarked(m, m', index, root, num)
  {
    UpdateKeeps(m, m', index, root, num, maxHeight);
    forall b | b in index && b != root ensures Explicit(m', b) <==> Explicit(m, b) {
      UpdateKeepsExplicit(m, m', index, root, num, maxHeight, b);
    }
  }

  /** Updating as far up as the larger of the old and the new mark asks for is right, unless that height wraps round. */
  lemma {:induction false} RemarkedIff(m: Marks, m': Marks, index: seq<Block>, root: Block, num: int, top: int)
    requires IsIndex(index) && Consistent(m, index) && root in index && root.pprev != null && !ByParent(m, root)
    requires root.nHeight < TWO31 && -1 <= num != m[root] && num <= top && m[root] <= top < TWO31
    requires top == num || top == m[root]
    requires Updated(m, m', index, root, num, Reach(root, top)) && NoneExplicit(m, index, root, Reach(root, top))
    ensures Remarked(m, m', index, root, num) <==> root.nHeight + top < TWO31 || Childless(index, root)
  {
    if root.nHeight + top < TWO31 {
      RemarkedIs(m, m', index, root, num, Reach(root, top));
    } else {
      OnlyRootUpdated(m, m', index, root, num);
      if Childless(index, root) {
        ChildlessIsRight(m, m', index, root, num);
      } else {
        var c :| c in index && c.pprev == root;
        ChildIsWrong(m, m', index, root, num, top, c);
      }
    }
  }

  lemma OnlyRootUpdated(m: Marks, m': Marks, index: seq<Block>, root: Block, num: int)
    requires IsIndex(index) && root in index && Updated(m, m', index, root, num, root.nHeight) && num >= -1
    ensures m'[root] == num && forall b :: b in index && b != root ==> m'[b] == m[b]
  {
    forall b | b in index && b != root ensures m'[b] == m[b] { assert !InRegion(b, root, root.nHeight); }
  }

  lemma ChildlessIsRight(m: Marks, m': Marks, index: seq<Block>, root: Block, num: int)
    requires IsIndex(index) && Consistent(m, index) && Covers(m', index) && root in index && root.pprev != null
    requires !ByParent(m, root) && num >= -1 && Childless(index, root)
    requires m'[root] == num && forall b :: b in index && b != root ==> m'[b] == m[b]
    ensures Remarked(m, m', index, root, num)
  {
    forall b | b in index ensures ByParent(m', b) <==> ByParent(m, b) {
      if b.pprev != null { assert b.pprev in index && b.pprev != root; }
    }
  }

  /** A child keeps its old mark, which was implied by the old one of its parent or was its own. */
  lemma ChildIsWrong(m: Marks, m': Marks, index: seq<Block>, root: Block, num: int, top: int, c: Block)
    requires Consistent(m, index) && Covers(m', index) && root in index && num != m[root] && top > 0
    requires (top == num || top == m[root]) && c in index && c.pprev == root && c != root
    requires m'[root] == num && m'[c] == m[c]
    ensures !Remarked(m, m', index, root, num)
  {
    if top == num {
      assert ByParent(m', c) && !Explicit(m', c);
    } else {
      assert ByParent(m, c) && m[c] == top - 1;
    }
  }

  /**
   * AcceptSoftRejectedBlockNL: a mark of a block's own may be lowered or taken away. The marks are then as they should
   * be if and only if the sum of height and old mark fits 32 bits, or no block is known that extends this one.
   */
  method AcceptSoftRejectedBlock(index: seq<Block>, b: Block, numBlocks: int) returns (ok: bool)
    requires IsIndex(index) && b in index && Consistent(MarksOf(index), index) && Fits(MarksOf(index), index)
    requires numBlocks >= -1
    modifies index
    ensures ok <==> Explicit(old(MarksOf(index)), b) && numBlocks < old(b.nSoftRejected)
    ensures ok ==> Updated(old(MarksOf(index)), MarksOf(index), index, b, numBlocks, Reach(b, old(b.nSoftRejected)))
    ensures ok ==> (Remarked(old(MarksOf(index)), MarksOf(index), index, b, numBlocks) <==>
                    b.nHeight + old(b.nSoftRejected) < TWO31 || Childless(index, b))
    ensures !ok ==> forall x :: x in index ==> x.nSoftRejected == old(x.nSoftRejected)
  {
    ghost var m := MarksOf(index);
    if !b.IsSoftRejected() { return false; }
    if b.SoftRejectedBecauseOfParent() { return false; }
    if numBlocks >= b.nSoftRejected { return false; }
    var maxHeight := Sum32(b.nHeight, b.nSoftRejected);
    IndexIsClosed(index, b);
    var blocks := Build(b, index, maxHeight);
    BuiltToReach(blocks, index, b, b.nSoftRejected);
    ReachHasNoMarks(m, index, b);
    SetRootSoftRejectedFor(blocks, numBlocks, index, Reach(b, m[b]));
    RemarkedIff(m, MarksOf(index), index, b, numBlocks, m[b]);
    ok := true;
  }

  lemma ReachHasNoMarks(m: Marks, index: seq<Block>, b: Block)
    requires IsIndex(index) && Consistent(m, index) && b in index && b.nHeight < TWO31 && 0 <= m[b] < TWO31
    ensures NoneExplicit(m, index, b, Reach(b, m[b]))
  {
    forall x | x in index && x != b && InRegion(x, b, Reach(b, m[b])) ensures !Explicit(m, x) {
      ReachIsImplied(m, index, b, x);
    }
  }

  // ---------------------------------------------------------------- runs

  /** The known blocks and their marks. */
  datatype State = State(index: seq<Block>, marks: Marks)

  datatype Event = Extended(b: Block) | Rejected(b: Block, num: int) | Accepted(b: Block, num: int) | Refused

  /** A block extends the index with the mark that its parent's implies. */
  ghost predicate ExtendedBy(m: Marks, m': Marks, index: seq<Block>, b: Block) {
    && b !in index && Linked(b) && (b.pprev != null ==> b.pprev in index)
    && Covers(m, index) && Covers(m', index + [b]) && (forall c :: c in index ==> m'[c] == m[c])
    && m'[b] == if ByParent(m, b) then m[b.pprev] - 1 else -1
  }

  /** What each call does, by the contracts of ExtendIndex, SoftRejectBlock and AcceptSoftRejectedBlock. */
  ghost predicate Step(s: State, e: Event, s': State) {
    match e
    case Extended(b) => s'.index == s.index + [b] && b.nHeight < TWO31 && ExtendedBy(s.marks, s'.marks, s.index, b)
    case Rejected(b, num) =>
      && s'.index == s.index && b in s.index && IsIndex(s.index) && Fits(s.marks, s.index) && 0 <= num < TWO31
      && MayReject(s.marks, s.index, b, num) && Updated(s.marks, s'.marks, s.index, b, num, Reach(b, num))
    case Accepted(b, num) =>
      && s'.index == s.index && b in s.index && IsIndex(s.index) && Fits(s.marks, s.index) && -1 <= num < s.marks[b]
      && Explicit(s.marks, b) && Updated(s.marks, s'.marks, s.index, b, num, Reach(b, s.marks[b]))
    case Refused => s' == s
  }

  /** The caller's check: the block count ends at a height that fits 32 bits. */
  ghost predicate Guarded(e: Event) { e.Rejected? ==> e.b.nHeight + e.num < TWO31 }

  ghost predicate Sound(s: State) { IsIndex(s.index) && Consistent(s.marks, s.index) && Within(s.marks, s.index) }

  /** A call that changes marks changes those that one block's mark implies, and no others. */
  ghost predicate Right(s: State, e: Event, s': State) {
    e.Rejected? || e.Accepted? ==> Remarked(s.marks, s'.marks, s.index, e.b, e.num)
  }

  lemma ExtendedKeeps(m: Marks, m': Marks, index: seq<Block>, b: Block)
    requires IsIndex(index) && Consistent(m, index) && Within(m, index) && b.nHeight < TWO31
    requires ExtendedBy(m, m', index, b)
    ensures IsIndex(index + [b]) && Consistent(m', index + [b]) && Within(m', index + [b])
  {
    forall c | c in index + [b]
      ensures m'[c] >= -1 && (c.pprev == null ==> m'[c] == -1) && (ByParent(m', c) ==> m'[c] == m'[c.pprev] - 1)
      ensures c.nHeight + m'[c] < TWO31
    {
      if c != b { assert c in index; }
    }
  }

  lemma UpdatedKeepsWithin(m: Marks, m': Marks, index: seq<Block>, root: Block, num: int, maxHeight: int)
    requires Within(m, index) && root in index && root.nHeight + num < TWO31
    requires Updated(m, m', index, root, num, maxHeight)
    ensures Within(m', index)
  {
  }

  /** A guarded call never meets a sum that wraps round, keeps that so, and changes what it should. */
  lemma StepSound(s: State, e: Event, s': State)
    requires Sound(s) && Step(s, e, s') && Guarded(e)
    ensures Sound(s') && Right(s, e, s')
  {
    match e
    case Extended(b) => ExtendedKeeps(s.marks, s'.marks, s.index, b);
    case Rejected(b, num) =>
      NotByParent(s.marks, s.index, b);
      RemarkedIff(s.marks, s'.marks, s.index, b, num, num);
      UpdatedKeepsWithin(s.marks, s'.marks, s.index, b, num, Reach(b, num));
    case Accepted(b, num) =>
      ReachHasNoMarks(s.marks, s.index, b);
      RemarkedIff(s.marks, s'.marks, s.index, b, num, s.marks[b]);
      UpdatedKeepsWithin(s.marks, s'.marks, s.index, b, num, Reach(b, s.marks[b]));
    case Refused =>
  }

  lemma NotByParent(m: Marks, index: seq<Block>, b: Block)
    requires IsIndex(index) && Consistent(m, index) && b in index && b.nHeight > 0
    requires m[b] >= 0 ==> !ByParent(m, b)
    ensures b.pprev != null && !ByParent(m, b)
  {
  }

  ghost predicate IsRun(states: seq<State>, events: seq<Event>) {
    && |states| == |events| + 1 && states[0] == State([], map[])
    && forall i :: 0 <= i < |events| ==> Step(states[i], events[i], states[i + 1])
  }

  /** From an empty index on, guarded calls keep every mark consistent and each changes only what it should. */
  lemma {:induction false} RunSound(states: seq<State>, events: seq<Event>, n: nat)
    requires IsRun(states, events) && n < |states| && forall e :: e in events ==> Guarded(e)
    ensures Sound(states[n]) && forall i :: 0 <= i < n ==> Right(states[i], events[i], states[i + 1])
  {
    if n > 0 {
      RunSound(states, events, n - 1);
      StepSound(states[n - 1], events[n - 1], states[n]);
    }
  }

  ghost predicate Unmarked(index: seq<Block>)
    reads index
  {
    IsIndex(index) && forall b :: b in index ==> b.nSoftRejected == -1
  }

  /** A new block in an index without marks. */
  method ExtendUnmarked(index: seq<Block>, prev: Block?) returns (b: Block, index': seq<Block>)
    requires Unmarked(index) && (prev != null ==> prev in index && WellBuilt(prev))
    ensures fresh(b) && b.pprev == prev && WellBuilt(b) && b.nHeight == if prev == null then 0 else prev.nHeight + 1
    ensures index' == index + [b] && Unmarked(index')
  {
    b := ExtendIndex(index, prev, 0);
    index' := index + [b];
    forall c | c in index' ensures c.nSoftRejected == -1 { if c != b { assert c in index; } }
  }

  /** A genesis block and two blocks on top of it. */
  method ThreeBlocks() returns (genesis: Block, first: Block, second: Block, index: seq<Block>)
    ensures index == [genesis, first, second] && fresh(index) && Unmarked(index)
    ensures genesis.nHeight == 0 && first.nHeight == 1 && second.nHeight == 2 && second.pprev == first
  {
    genesis, index := ExtendUnmarked([], null);
    first, index := ExtendUnmarked(index, genesis);
    second, index := ExtendUnmarked(index, first);
  }

  /** At height 1 with a known child: marked for the most blocks there are, and the child left without a mark. */
  method LargestCountMarksOneBlock() returns (parent: Block, child: Block, index: seq<Block>, ok: bool)
    ensures ok && parent in index && child in index && parent.nHeight == 1 && child.pprev == parent
    ensures parent.nSoftRejected == TWO31 - 1 && child.nSoftRejected == -1 && !Consistent(MarksOf(index), index)
  {
    var genesis;
    genesis, parent, child, index := ThreeBlocks();
    ghost var m := MarksOf(index);
    UnmarkedMayReject(m, index, parent, TWO31 - 1);
    ok := SoftRejectBlock(index, parent, TWO31 - 1, true);
    OnlyRootUpdated(m, MarksOf(index), index, parent, TWO31 - 1);
    assert ByParent(MarksOf(index), child);
  }

  lemma UnmarkedMayReject(m: Marks, index: seq<Block>, b: Block, num: int)
    requires IsIndex(index) && Covers(m, index) && (forall x :: x in index ==> m[x] == -1 && x.nHeight < TWO31)
    requires b in index && b.nHeight > 0 && 0 <= num < TWO31
    ensures Consistent(m, index) && Fits(m, index) && MayReject(m, index, b, num)
  {
  }
}
