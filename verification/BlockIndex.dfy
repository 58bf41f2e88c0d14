// Block index entries of src/block_index.h and src/block_index.cpp: the skip list over the block tree, and the last
// common ancestor of two blocks.
module BlockIndex {
  import opened Bits

  // ---------------------------------------------------------------- heights to skip to

  /** Turn the lowest one bit of a number into a zero. */
  function InvertLowestOne(n: nat): nat { if n == 0 then 0 else And(n, n - 1) }

  function SkipHeight(height: nat): nat {
    if height < 2 then 0
    else if height % 2 == 1 then InvertLowestOne(InvertLowestOne(height - 1)) + 1
    else InvertLowestOne(height)
  }

  /** What it does to any positive number, written with its lowest one bit set apart. */
  lemma {:induction false} InvertLowestOneIs(k: nat, m: nat, n: nat)
    requires n == Pow2(k) * (2 * m + 1)
    ensures n > 0 && InvertLowestOne(n) == n - Pow2(k)
  {
    MulAtLeast(Pow2(k), 2 * m + 1);
    if k == 0 {
      AndEvenOdd(m);
    } else {
      var h: nat := Pow2(k - 1) * (2 * m + 1);
      Halved(Pow2(k - 1), 2 * m + 1, h);
      InvertLowestOneIs(k - 1, m, h);
      InvertTwice(h);
    }
  }

  lemma Halved(p: int, x: int, h: int)
    requires h == p * x
    ensures (2 * p) * x == 2 * h
  {
  }

  lemma AndEvenOdd(m: nat)
    ensures And(2 * m + 1, 2 * m) == 2 * m
  {
    assert (2 * m + 1) / 2 == m && 2 * m / 2 == m && 2 * m % 2 == 0;
    AndSelf(m);
  }

  lemma {:induction false} AndSelf(m: nat)
    ensures And(m, m) == m
  {
    if m > 0 { AndSelf(m / 2); }
  }

  lemma InvertTwice(n: nat)
    requires n > 0
    ensures InvertLowestOne(2 * n) == 2 * InvertLowestOne(n)
  {
    assert 2 * n / 2 == n && (2 * n - 1) / 2 == n - 1 && 2 * n % 2 == 0;
  }

  lemma {:induction false} AndAtMost(a: nat, b: nat)
    ensures And(a, b) <= b
    decreases a
  {
    if a > 0 { AndAtMost(a / 2, b / 2); }
  }

  /** The lowest one bit of a number is its k-th: it can be halved k times, and is odd then. */
  predicate LowestBit(n: nat, k: nat) {
    if k == 0 then n % 2 == 1 else n % 2 == 0 && LowestBit(n / 2, k - 1)
  }

  lemma {:induction false} LowestBitCleared(n: nat, k: nat)
    requires LowestBit(n, k)
    ensures n >= 1 && InvertLowestOne(n) == n - Pow2(k) && (k > 0 ==> n >= 2 && n % 2 == 0)
  {
    if k == 0 {
      AndEvenOdd(n / 2);
    } else {
      LowestBitCleared(n / 2, k - 1);
      InvertTwice(n / 2);
    }
  }

  /** An even height skips down by its lowest one bit. */
  lemma {:induction false} SkipHeightEven(height: nat, k: nat)
    requires k > 0 && LowestBit(height, k)
    ensures SkipHeight(height) == height - Pow2(k)
  {
    LowestBitCleared(height, k);
  }

  /** An odd height skips down by the two lowest one bits of the height before it, or to 1 if that has only one. */
  lemma {:induction false} SkipHeightOdd(height: nat, k: nat, rest: nat, j: nat)
    requires height >= 1 && k > 0 && LowestBit(height - 1, k) && rest == height - 1 - Pow2(k)
    ensures rest == 0 ==> SkipHeight(height) == 1
    ensures LowestBit(rest, j) ==> SkipHeight(height) == height - Pow2(k) - Pow2(j)
  {
    LowestBitCleared(height - 1, k);
    if LowestBit(rest, j) { LowestBitCleared(rest, j); }
  }

  /** The skip height lies strictly below the height. */
  lemma SkipHeightBelow(height: nat)
    requires height >= 1
    ensures SkipHeight(height) < height
  {
    if height >= 2 {
      AndAtMost(height, height - 1);
      AndAtMost(height - 1, height - 2);
      var n := InvertLowestOne(height - 1);
      if n > 0 { AndAtMost(n, n - 1); }
    }
  }

  // ---------------------------------------------------------------- blocks

  /** Heights count the steps back to the genesis block. */
  ghost predicate Linked(b: Block)
    decreases b.nHeight
  {
    if b.pprev == null then b.nHeight == 0 else b.nHeight == b.pprev.nHeight + 1 && Linked(b.pprev)
  }

  /** The block reached by following pprev down to a height. */
  ghost function Ancestor(b: Block, height: nat): (a: Block)
    requires Linked(b) && height <= b.nHeight
    ensures Linked(a) && a.nHeight == height
    decreases b.nHeight
  {
    if height == b.nHeight then b else Ancestor(b.pprev, height)
  }

  /** Every block but the genesis block skips to its ancestor at the skip height, and knows the latest time so far. */
  ghost predicate WellBuilt(b: Block)
    decreases b.nHeight
  {
    && Linked(b)
    && if b.pprev == null then b.pskip == null && b.nTimeMax == b.nTime
       else
         && WellBuilt(b.pprev) && SkipHeight(b.nHeight) <= b.pprev.nHeight
         && b.pskip == Ancestor(b.pprev, SkipHeight(b.nHeight))
         && b.nTimeMax == if b.pprev.nTimeMax >= b.nTime then b.pprev.nTimeMax else b.nTime
  }

  ghost predicate IsAncestor(a: Block, b: Block)
    requires Linked(b)
  {
    a.nHeight <= b.nHeight && Ancestor(b, a.nHeight) == a
  }

  lemma {:induction false} AncestorOfAncestor(b: Block, h: nat, k: nat)
    requires Linked(b) && k <= h <= b.nHeight
    ensures Ancestor(Ancestor(b, h), k) == Ancestor(b, k)
    decreases b.nHeight
  {
    if h < b.nHeight { AncestorOfAncestor(b.pprev, h, k); }
  }

  lemma {:induction false} AncestorBuilt(b: Block, h: nat)
    requires WellBuilt(b) && h <= b.nHeight
    ensures WellBuilt(Ancestor(b, h))
    decreases b.nHeight
  {
    if h < b.nHeight { AncestorBuilt(b.pprev, h); }
  }

  /** Times never go down along a chain. */
  lemma {:induction false} TimeMaxGrows(b: Block, h: nat)
    requires WellBuilt(b) && h <= b.nHeight
    ensures Ancestor(b, h).nTimeMax <= b.nTimeMax && Ancestor(b, h).nTime <= b.nTimeMax
    decreases b.nHeight
  {
    if h < b.nHeight { TimeMaxGrows(b.pprev, h); }
  }

  class Block {
    const pprev: Block?
    const pskip: Block?
    const nHeight: nat
    const nTime: nat
    const nTimeMax: nat
    var nSoftRejected: int

    /** A new entry on top of prev, or a genesis block. */
    constructor (prev: Block?, nTime: nat)
      requires prev != null ==> WellBuilt(prev)
      ensures WellBuilt(this) && pprev == prev && this.nTime == nTime
      ensures nSoftRejected == if prev != null && prev.nSoftRejected > 0 then prev.nSoftRejected - 1 else -1
    {
      pprev, this.nTime := prev, nTime;
      nHeight, pskip, nSoftRejected := 0, null, -1;
      if prev != null {
        nHeight := prev.nHeight + 1;
        SkipHeightBelow(prev.nHeight + 1);
        var skip := prev.GetAncestor(SkipHeight(prev.nHeight + 1));
        pskip := skip;
        if prev.nSoftRejected > 0 {
          nSoftRejected := prev.nSoftRejected - 1;
        } else {
          nSoftRejected := -1;
        }
      }
      nTimeMax := if prev != null && prev.nTimeMax >= nTime then prev.nTimeMax else nTime;
    }

    predicate IsSoftRejected()
      reads this
    {
      nSoftRejected >= 0
    }

    predicate SoftRejectedBecauseOfParent()
      requires pprev != null
      reads pprev
    {
      pprev.nSoftRejected > 0
    }

    /** For a block whose parent leaves it unmarked. */
    method SetSoftRejectedFor(numBlocks: int)
      requires numBlocks >= -1 && pprev != null && !SoftRejectedBecauseOfParent()
      modifies this
      ensures nSoftRejected == numBlocks
    {
      nSoftRejected := numBlocks;
    }

    /** A block above a soft rejected one is soft rejected for one block less. */
    method SetSoftRejectedFromParent()
      requires pprev != null
      modifies this
      ensures nSoftRejected == if old(SoftRejectedBecauseOfParent()) then old(pprev.nSoftRejected) - 1 else -1
    {
      if SoftRejectedBecauseOfParent() {
        nSoftRejected := pprev.nSoftRejected - 1;
      } else {
        nSoftRejected := -1;
      }
    }

    /**
     * GetAncestor follows skips where they help, and ends where pprev would lead; it needs no more steps than blocks.
     */
    method GetAncestor(height: int) returns (r: Block?)
      requires WellBuilt(this)
      ensures height < 0 || height > nHeight ==> r == null
      ensures 0 <= height <= nHeight ==> r == Ancestor(this, height)
    {
      if height > nHeight || height < 0 { return null; }
      var walk: Block, heightWalk := this, nHeight;
      while heightWalk > height
        invariant WellBuilt(walk) && walk.nHeight == heightWalk >= height
        invariant Ancestor(walk, height) == Ancestor(this, height)
        decreases heightWalk
      {
        var heightSkip, heightSkipPrev := SkipHeight(heightWalk), SkipHeight(heightWalk - 1);
        SkipHeightBelow(heightWalk);
        if walk.pskip != null &&
           (heightSkip == height ||
            (heightSkip > height && !(heightSkipPrev < heightSkip - 2 && heightSkipPrev >= height))) {
          AncestorOfAncestor(walk, heightSkip, height);
          AncestorBuilt(walk, heightSkip);
          walk, heightWalk := walk.pskip, heightSkip;
        } else {
          assert walk.pprev != null;
          walk, heightWalk := walk.pprev, heightWalk - 1;
        }
      }
      r := walk;
    }
  }

  /** The deepest block that two blocks have in common; null exactly when they share none. */
  ghost predicate IsLastCommon(r: Block?, a: Block, b: Block)
    requires Linked(a) && Linked(b)
  {
    if r == null then forall h :: 0 <= h <= a.nHeight && h <= b.nHeight ==> Ancestor(a, h) != Ancestor(b, h)
    else
      && IsAncestor(r, a) && IsAncestor(r, b)
      && forall h :: r.nHeight < h <= a.nHeight && h <= b.nHeight ==> Ancestor(a, h) != Ancestor(b, h)
  }

  /** LastCommonAncestor, and its closing assertion. */
  method LastCommonAncestor(a: Block, b: Block) returns (r: Block?)
    requires WellBuilt(a) && WellBuilt(b)
    ensures IsLastCommon(r, a, b)
  {
    var pa: Block?, pb: Block? := a, b;
    if a.nHeight > b.nHeight {
      pa := a.GetAncestor(b.nHeight);
    } else if b.nHeight > a.nHeight {
      pb := b.GetAncestor(a.nHeight);
    }
    ghost var top := pa.nHeight;
    while pa != pb && pa != null && pb != null
      invariant pa == null <==> pb == null
      invariant pa != null ==> pb != null && pa.nHeight == pb.nHeight <= top && IsAncestor(pa, a) && IsAncestor(pb, b)
      invariant forall h :: (if pa == null then -1 else pa.nHeight) < h <= top ==> Ancestor(a, h) != Ancestor(b, h)
      decreases if pa == null then 0 else pa.nHeight + 1
    {
      if pa.nHeight > 0 {
        AncestorOfAncestor(a, pa.nHeight, pa.nHeight - 1);
        AncestorOfAncestor(b, pb.nHeight, pb.nHeight - 1);
      }
      pa, pb := pa.pprev, pb.pprev;
    }
    assert pa == pb;
    r := pa;
  }
}
