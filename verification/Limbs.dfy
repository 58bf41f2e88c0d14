// Numbers as sequences of 32-bit limbs, least significant first.
module Limbs {
  import opened Bits

  const BASE: int := 0x1_0000_0000

  type Limb = x: int | 0 <= x < 0x1_0000_0000

  /** The weight of the n-th limb. */
  function Weight(n: nat): (w: nat)
    ensures w >= 1
  {
    if n == 0 then 1 else BASE * Weight(n - 1)
  }

  lemma {:induction false} WeightIsPow2(n: nat)
    ensures Weight(n) == Pow2(32 * n)
  {
    if n > 0 {
      WeightIsPow2(n - 1);
      Pow2Add(32, 32 * (n - 1));
      Pow2Values();
    }
  }

  lemma WeightNext(n: nat)
    ensures Weight(n + 1) == BASE * Weight(n)
  {
  }

  lemma {:induction false} WeightAdd(a: nat, b: nat)
    ensures Weight(a + b) == Weight(a) * Weight(b)
  {
    if a > 0 {
      WeightAdd(a - 1, b);
      assert Weight(a) * Weight(b) == BASE * (Weight(a - 1) * Weight(b));
    }
  }

  /** The value of the limbs from lo up to hi. */
  function Value(s: seq<Limb>, lo: nat, hi: nat): (v: nat)
    requires lo <= hi <= |s|
    decreases hi - lo
  {
    if lo == hi then 0 else Value(s, lo, hi - 1) + s[hi - 1] * Weight(hi - 1 - lo)
  }

  lemma {:induction false} ValueSame(s: seq<Limb>, t: seq<Limb>, lo: nat, hi: nat)
    requires lo <= hi <= |s| && hi <= |t| && forall i :: lo <= i < hi ==> s[i] == t[i]
    ensures Value(s, lo, hi) == Value(t, lo, hi)
    decreases hi - lo
  {
    if lo < hi { ValueSame(s, t, lo, hi - 1); }
  }

  lemma {:induction false} ValueZero(s: seq<Limb>, lo: nat, hi: nat)
    requires lo <= hi <= |s| && forall i :: lo <= i < hi ==> s[i] == 0
    ensures Value(s, lo, hi) == 0
    decreases hi - lo
  {
    if lo < hi { ValueZero(s, lo, hi - 1); }
  }

  lemma {:induction false} ValueSplit(s: seq<Limb>, lo: nat, mid: nat, hi: nat)
    requires lo <= mid <= hi <= |s|
    ensures Value(s, lo, hi) == Value(s, lo, mid) + Weight(mid - lo) * Value(s, mid, hi)
    decreases hi - mid
  {
    if mid < hi {
      ValueSplit(s, lo, mid, hi - 1);
      WeightAdd(mid - lo, hi - 1 - mid);
      Spread(Weight(mid - lo), Value(s, mid, hi - 1), s[hi - 1], Weight(hi - 1 - mid));
    }
  }

  /** Numbers that agree from limb n up differ only by what is below. */
  lemma UpperSame(s: seq<Limb>, t: seq<Limb>, n: nat)
    requires n <= |s| == |t| && forall i :: n <= i < |s| ==> s[i] == t[i]
    ensures Value(s, 0, |s|) - Value(s, 0, n) == Value(t, 0, |t|) - Value(t, 0, n)
  {
    ValueSplit(s, 0, n, |s|);
    ValueSplit(t, 0, n, |t|);
    ValueSame(s, t, n, |s|);
  }

  lemma Spread(w: int, v: int, x: int, u: int)
    ensures w * (v + x * u) == w * v + x * (w * u)
  {
  }

  lemma {:induction false} ValueBelow(s: seq<Limb>, lo: nat, hi: nat)
    requires lo <= hi <= |s|
    ensures Value(s, lo, hi) < Weight(hi - lo)
    decreases hi - lo
  {
    if lo < hi {
      ValueBelow(s, lo, hi - 1);
      WeightNext(hi - 1 - lo);
      BelowNext(Value(s, lo, hi - 1), s[hi - 1], Weight(hi - 1 - lo));
    }
  }

  lemma BelowNext(v: int, x: int, w: int)
    requires 0 <= v < w && 0 <= x < BASE
    ensures v + x * w < BASE * w
  {
    MulAtLeast(w, BASE - x);
    MulSub(w, BASE, x);
  }

  /** One step of a carry chain: a digit and a carry stand for their sum. */
  lemma CarryStep(n: int, low: int, high: int, w: int)
    requires n == low + BASE * high
    ensures low * w + high * (BASE * w) == n * w
  {
    assert (low + BASE * high) * w == low * w + high * (BASE * w);
  }
}
