// The indexed chain of src/chain.cpp and src/chain.h: an array of blocks by height, kept in step with its tip.
module ActiveChain {
  import opened BlockIndex

  class Chain {
    var vChain: seq<Block?>
    var tip: Block?

    /** The array holds the tip's ancestor at every height. */
    ghost predicate Valid()
      reads this
    {
      if tip == null then vChain == []
      else
        && WellBuilt(tip) && |vChain| == tip.nHeight + 1
        && forall h :: 0 <= h <= tip.nHeight ==> vChain[h] == Ancestor(tip, h)
    }

    constructor ()
      ensures Valid() && tip == null
    {
      vChain, tip := [], null;
    }

    function Height(): int
      reads this
    {
      if tip == null then -1 else tip.nHeight
    }

    function At(height: int): Block?
      reads this
    {
      if height < 0 || height >= |vChain| then null else vChain[height]
    }

    predicate Contains(b: Block)
      reads this
    {
      At(b.nHeight) == b
    }

    /** The blocks of the chain are the tip and its ancestors. */
    lemma ContainsIs(b: Block)
      requires Valid()
      ensures Contains(b) <==> tip != null && IsAncestor(b, tip)
    {
    }

    /** SetTip rewrites the array from the top down, and stops where it already agrees: nothing below can differ. */
    method SetTip(b: Block?)
      requires Valid() && (b != null ==> WellBuilt(b))
      modifies this
      ensures Valid() && tip == b
    {
      ghost var oldTip, oldChain := tip, vChain;
      tip := b;
      if b == null {
        vChain := [];
        return;
      }
      vChain := if b.nHeight + 1 <= |vChain| then vChain[..b.nHeight + 1]
                else vChain + seq(b.nHeight + 1 - |vChain|, _ => null);
      var walk: Block? := b;
      while walk != null && vChain[walk.nHeight] != walk
        invariant tip == b && |vChain| == b.nHeight + 1
        invariant walk != null ==> IsAncestor(walk, b)
        invariant forall h :: (if walk == null then -1 else walk.nHeight) < h <= b.nHeight ==>
          vChain[h] == Ancestor(b, h)
        invariant walk != null ==> forall h :: 0 <= h <= walk.nHeight ==>
          vChain[h] == if h < |oldChain| then oldChain[h] else null
        decreases if walk == null then 0 else walk.nHeight + 1
      {
        if walk.nHeight > 0 { AncestorOfAncestor(b, walk.nHeight, walk.nHeight - 1); }
        vChain := vChain[walk.nHeight := walk];
        walk := walk.pprev;
      }
      if walk != null {
        forall h | 0 <= h <= walk.nHeight
          ensures vChain[h] == Ancestor(b, h)
        {
          AncestorOfAncestor(b, walk.nHeight, h);
          AncestorOfAncestor(oldTip, walk.nHeight, h);
        }
      }
    }

    /** FindFork: the highest block that b's chain shares with this one; null exactly when there is none. */
    method FindFork(b: Block?) returns (r: Block?)
      requires Valid() && (b != null ==> WellBuilt(b))
      ensures b == null ==> r == null
      ensures b != null && r != null ==> IsAncestor(r, b) && Contains(r)
      ensures b != null && r != null ==> forall h :: r.nHeight < h <= b.nHeight ==> !Contains(Ancestor(b, h))
      ensures b != null && r == null ==> forall h :: 0 <= h <= b.nHeight ==> !Contains(Ancestor(b, h))
    {
      if b == null { return null; }
      var walk: Block? := b;
      if b.nHeight > Height() {
        walk := b.GetAncestor(Height());
      }
      while walk != null && !Contains(walk)
        invariant walk != null ==> IsAncestor(walk, b)
        invariant forall h :: (if walk == null then -1 else walk.nHeight) < h <= b.nHeight ==> !Contains(Ancestor(b, h))
        decreases if walk == null then 0 else walk.nHeight + 1
      {
        if walk.nHeight > 0 { AncestorOfAncestor(b, walk.nHeight, walk.nHeight - 1); }
        walk := walk.pprev;
      }
      r := walk;
    }

    /** std::lower_bound by the latest time so far, which never goes down along the chain. */
    method LowerBound(nTime: int) returns (first: nat)
      requires Valid()
      ensures first <= |vChain|
      ensures forall h :: 0 <= h < first ==> vChain[h] != null && vChain[h].nTimeMax < nTime
      ensures first < |vChain| ==> vChain[first] != null && vChain[first].nTimeMax >= nTime
    {
      first := 0;
      var count := |vChain|;
      while count > 0
        invariant 0 <= count && first + count <= |vChain|
        invariant forall h :: 0 <= h < first ==> vChain[h] != null && vChain[h].nTimeMax < nTime
        invariant first + count < |vChain| ==> vChain[first + count] != null && vChain[first + count].nTimeMax >= nTime
        decreases count
      {
        var step := count / 2;
        var it := first + step;
        if vChain[it].nTimeMax < nTime {
          forall h | 0 <= h <= it
            ensures vChain[h] != null && vChain[h].nTimeMax < nTime
          {
            AncestorBuilt(tip, it);
            AncestorOfAncestor(tip, it, h);
            TimeMaxGrows(Ancestor(tip, it), h);
          }
          first, count := it + 1, count - (step + 1);
        } else {
          count := step;
        }
      }
    }

    /**
     * FindEarliestAtLeast: the lowest block of the chain whose own time is at least nTime; null exactly when there is
     * none.
     */
    method FindEarliestAtLeast(nTime: int) returns (r: Block?)
      requires Valid()
      ensures r == null ==> forall h :: 0 <= h < |vChain| ==> vChain[h] != null && vChain[h].nTime < nTime
      ensures r != null ==> Contains(r) && r.nTime >= nTime && forall h :: 0 <= h < r.nHeight ==>
        vChain[h] != null && vChain[h].nTime < nTime
    {
      var lower := LowerBound(nTime);
      forall h | 0 <= h < lower
        ensures vChain[h].nTime < nTime
      {
        AncestorBuilt(tip, h);
        TimeMaxGrows(Ancestor(tip, h), h);
      }
      r := null;
      if lower < |vChain| {
        AncestorBuilt(tip, lower);
        if lower > 0 { AncestorOfAncestor(tip, lower, lower - 1); }
        r := vChain[lower];
      }
    }
  }
}
