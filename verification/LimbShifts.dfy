// What shifting does to limbs: where each limb's two halves go, and what the result is worth. A shift by s bits within
// a limb is given by p = 2^s and q = 2^(32 - s), the two factors of the base.
module LimbShifts {
  import opened Bits
  import opened Limbs

  predicate Factors(p: nat, q: nat) { p >= 1 && q >= 1 && p * q == BASE }

  lemma ShiftFactors(s: nat)
    requires s <= 32
    ensures Factors(Pow2(s), Pow2(32 - s))
  {
    Pow2Add(s, 32 - s);
    Pow2Values();
  }

  /** The part of a limb that a left shift leaves in place, and the part that moves on to the next limb. */
  function KeptLeft(x: Limb, p: nat): (r: Limb) { x * p % BASE }

  function MovedLeft(x: Limb, q: nat): nat
    requires q >= 1
  {
    x / q
  }

  /** The part of a limb that a right shift leaves in place, and the part that moves on to the limb before. */
  function KeptRight(x: Limb, p: nat): nat
    requires p >= 1
  {
    x / p
  }

  function MovedRight(x: Limb, q: nat): (r: Limb) { x * q % BASE }

  /** With p * q = 2^32: the top part of x is x / q, and what is left is a multiple of p. */
  lemma Halves(x: Limb, p: nat, q: nat)
    requires Factors(p, q)
    ensures x * p % BASE == x % q * p && x * p / BASE == x / q && x / q < p && (x % q * p) % p == 0
    ensures x == x / q * q + x % q && x / q <= x
  {
    var h, l := x / q, x % q;
    MulAtLeast(h, q);
    assert x == q * h + l;
    assert x * p == (p * q) * h + l * p;
    MulAtLeast(p, q - l);
    MulSub(p, q, l);
    MulNonneg(l, p);
    DivModIs(x * p, BASE, h, l * p);
    DivModIs(l * p, p, l, 0);
    if h >= p {
      MulSub(q, h, p);
      MulNonneg(q, h - p);
    }
  }

  lemma LeftHalves(x: Limb, p: nat, q: nat)
    requires Factors(p, q)
    ensures x * p == KeptLeft(x, p) + BASE * MovedLeft(x, q)
    ensures MovedLeft(x, q) < p && MovedLeft(x, q) < BASE && KeptLeft(x, p) % p == 0
  {
    Halves(x, p, q);
  }

  lemma RightHalves(x: Limb, p: nat, q: nat)
    requires Factors(p, q)
    ensures x == KeptRight(x, p) * p + x % p && MovedRight(x, q) == x % p * q
    ensures KeptRight(x, p) < q && KeptRight(x, p) < BASE && MovedRight(x, q) % q == 0
  {
    assert Factors(q, p);
    Halves(x, q, p);
  }

  // ---------------------------------------------------------------- left

  /** Limb m of a shifted left by k limbs and a part of a limb, when the first i limbs of a have been moved. */
  function LeftLimb(a: seq<Limb>, k: nat, p: nat, q: nat, i: nat, m: nat): nat
    requires q >= 1 && i <= |a|
  {
    (if k <= m < i + k then KeptLeft(a[m - k], p) else 0) + (if k < m <= i + k then MovedLeft(a[m - k - 1], q) else 0)
  }

  ghost predicate IsLeft(a: seq<Limb>, k: nat, p: nat, q: nat, i: nat, r: seq<Limb>) {
    Factors(p, q) && i <= |a| == |r| && forall m :: 0 <= m < |r| ==> r[m] == LeftLimb(a, k, p, q, i, m)
  }

  lemma {:induction false} LeftValue(a: seq<Limb>, k: nat, p: nat, q: nat, r: seq<Limb>, n: nat)
    requires IsLeft(a, k, p, q, |a|, r) && k <= n <= |a|
    ensures Value(r, 0, n) + (if n > k then MovedLeft(a[n - k - 1], q) else 0) * Weight(n)
      == Value(a, 0, n - k) * (p * Weight(k))
    decreases n
  {
    if n == k {
      ValueZero(r, 0, k);
    } else {
      LeftValue(a, k, p, q, r, n - 1);
      LeftHalves(a[n - k - 1], p, q);
      WeightNext(n - 1);
      WeightAdd(n - 1 - k, k);
      var carry := if n - 1 > k then MovedLeft(a[n - k - 2], q) else 0;
      assert r[n - 1] == LeftLimb(a, k, p, q, |a|, n - 1);
      LeftStep(Value(r, 0, n - 1), carry, r[n - 1], KeptLeft(a[n - k - 1], p), MovedLeft(a[n - k - 1], q),
               Value(a, 0, n - 1 - k),
               a[n - k - 1], p, Weight(k), Weight(n - 1 - k), Weight(n - 1));
    }
  }

  lemma LeftStep(v: int, carry: int, y: int, low: int, high: int, u: int, x: int, p: int, wk: int, w: int, t: int)
    requires t == w * wk && v + carry * t == u * (p * wk) && x * p == low + BASE * high && y == low + carry
    ensures v + y * t + high * (BASE * t) == (u + x * w) * (p * wk)
  {
    assert (low + carry) * t + high * (BASE * t) == carry * t + (low + BASE * high) * t;
    assert (u + x * w) * (p * wk) == u * (p * wk) + (x * p) * (w * wk);
  }

  lemma LeftAll(a: seq<Limb>, k: nat, p: nat, q: nat, r: seq<Limb>)
    requires IsLeft(a, k, p, q, |a|, r) && k >= |a|
    ensures Value(r, 0, |r|) == Value(a, 0, |a|) * (p * Weight(k)) % Weight(|a|)
  {
    ValueZero(r, 0, |a|);
    WeightAdd(|a|, k - |a|);
    Multiple(Value(a, 0, |a|), p, Weight(|a|), Weight(k - |a|));
  }

  lemma LeftSome(a: seq<Limb>, k: nat, p: nat, q: nat, r: seq<Limb>)
    requires IsLeft(a, k, p, q, |a|, r) && k < |a|
    ensures Value(r, 0, |r|) == Value(a, 0, |a|) * (p * Weight(k)) % Weight(|a|)
  {
    var n := |a|;
    ValueBelow(r, 0, n);
    LeftValue(a, k, p, q, r, n);
    ValueSplit(a, 0, n - k, n);
    WeightAdd(n - k, k);
    LeftEnd(Value(r, 0, n), MovedLeft(a[n - k - 1], q), Value(a, 0, n - k), Value(a, n - k, n), p, Weight(k),
            Weight(n - k), Weight(n), Value(a, 0, n));
  }

  lemma Multiple(v: nat, p: nat, w: nat, u: nat)
    requires w >= 1
    ensures v * (p * (w * u)) % w == 0
  {
    var q := v * p * u;
    assert v * (p * (w * u)) == w * q;
    DivModIs(v * (p * (w * u)), w, q, 0);
  }

  lemma LeftEnd(v: int, lost: int, low: int, high: int, p: int, wk: int, w: int, m: int, z: int)
    requires m == w * wk && 0 <= v < m && v + lost * m == low * (p * wk) && z == low + w * high
    ensures v == z * (p * wk) % m
  {
    assert (low + w * high) * (p * wk) == low * (p * wk) + (high * p) * (w * wk);
    assert (lost + high * p) * m == lost * m + (high * p) * m;
    DivModIs(z * (p * wk), m, lost + high * p, v);
  }

  /** A left shift multiplies by the power of two, modulo the size of the number. */
  lemma LeftIsTimes(a: seq<Limb>, shift: nat, r: seq<Limb>)
    requires IsLeft(a, shift / 32, Pow2(shift % 32), Pow2(32 - shift % 32), |a|, r)
    ensures Value(r, 0, |r|) == Value(a, 0, |a|) * Pow2(shift) % Weight(|a|)
  {
    Pow2Add(shift % 32, 32 * (shift / 32));
    WeightIsPow2(shift / 32);
    if shift / 32 >= |a| {
      LeftAll(a, shift / 32, Pow2(shift % 32), Pow2(32 - shift % 32), r);
    } else {
      LeftSome(a, shift / 32, Pow2(shift % 32), Pow2(32 - shift % 32), r);
    }
  }

  // ---------------------------------------------------------------- right

  function RightLimb(a: seq<Limb>, k: nat, p: nat, q: nat, i: nat, m: nat): nat
    requires p >= 1 && i <= |a|
  {
    (if m + k < i then KeptRight(a[m + k], p) else 0) + (if m + k + 1 < i then MovedRight(a[m + k + 1], q) else 0)
  }

  ghost predicate IsRight(a: seq<Limb>, k: nat, p: nat, q: nat, i: nat, r: seq<Limb>) {
    Factors(p, q) && i <= |a| == |r| && forall m :: 0 <= m < |r| ==> r[m] == RightLimb(a, k, p, q, i, m)
  }

  function LowBits(a: seq<Limb>, p: nat, i: nat): nat
    requires p >= 1
  {
    if i < |a| then a[i] % p else 0
  }

  lemma {:induction false} RightValue(a: seq<Limb>, k: nat, p: nat, q: nat, r: seq<Limb>, n: nat)
    requires IsRight(a, k, p, q, |a|, r) && k + n <= |a|
    ensures Value(r, 0, n) * p + LowBits(a, p, k) == Value(a, k, k + n) + LowBits(a, p, k + n) * Weight(n)
    decreases n
  {
    if n > 0 {
      RightValue(a, k, p, q, r, n - 1);
      RightLimbIs(a, k, p, q, n - 1);
      WeightNext(n - 1);
      assert r[n - 1] == RightLimb(a, k, p, q, |a|, n - 1);
      RightStep(Value(r, 0, n - 1), r[n - 1], LowBits(a, p, k), Value(a, k, k + n - 1), a[k + n - 1],
                LowBits(a, p, k + n - 1),
                LowBits(a, p, k + n), p, Weight(n - 1));
    }
  }

  lemma RightLimbIs(a: seq<Limb>, k: nat, p: nat, q: nat, m: nat)
    requires Factors(p, q) && k + m < |a|
    ensures RightLimb(a, k, p, q, |a|, m) * p == a[k + m] - LowBits(a, p, k + m) + LowBits(a, p, k + m + 1) * BASE
  {
    RightHalves(a[k + m], p, q);
    if k + m + 1 < |a| {
      RightHalves(a[k + m + 1], p, q);
      RightLimbScalar(KeptRight(a[k + m], p), LowBits(a, p, k + m + 1), p, q);
    }
  }

  lemma RightLimbScalar(high: int, next: int, p: int, q: int)
    requires p * q == BASE
    ensures (high + next * q) * p == high * p + next * BASE
  {
    assert (high + next * q) * p == high * p + next * (p * q);
  }

  lemma RightStep(v: int, y: int, l: int, u: int, x: int, low: int, next: int, p: int, w: int)
    requires v * p + l == u + low * w && y * p == x - low + next * BASE
    ensures (v + y * w) * p + l == (u + x * w) + next * (BASE * w)
  {
    assert (v + y * w) * p == v * p + (y * p) * w;
    assert (x - low + next * BASE) * w == x * w - low * w + next * (BASE * w);
  }

  /** A right shift divides by the power of two, rounding down. */
  lemma RightIsDiv(a: seq<Limb>, shift: nat, r: seq<Limb>)
    requires IsRight(a, shift / 32, Pow2(shift % 32), Pow2(32 - shift % 32), |a|, r)
    ensures Value(r, 0, |r|) == Value(a, 0, |a|) / Pow2(shift)
  {
    if shift / 32 >= |a| {
      RightAll(a, shift, r);
    } else {
      Pow2Add(32 * (shift / 32), shift % 32);
      WeightIsPow2(shift / 32);
      RightSome(a, shift / 32, Pow2(shift % 32), Pow2(32 - shift % 32), r);
    }
  }

  lemma RightAll(a: seq<Limb>, shift: nat, r: seq<Limb>)
    requires |r| == |a| && Zero(r) && shift >= 32 * |a|
    ensures Value(r, 0, |r|) == Value(a, 0, |a|) / Pow2(shift)
  {
    ValueBelow(a, 0, |a|);
    ValueZero(r, 0, |r|);
    WeightIsPow2(|a|);
    Pow2Grows(32 * |a|, shift);
    DivModIs(Value(a, 0, |a|), Pow2(shift), 0, Value(a, 0, |a|));
  }

  predicate Zero(r: seq<Limb>) { forall m :: 0 <= m < |r| ==> r[m] == 0 }

  lemma RightSome(a: seq<Limb>, k: nat, p: nat, q: nat, r: seq<Limb>)
    requires IsRight(a, k, p, q, |a|, r) && k < |a|
    ensures Weight(k) * p >= 1 && Value(r, 0, |r|) == Value(a, 0, |a|) / (Weight(k) * p)
  {
    RightQuotient(a, k, p, q, r);
    DropLimbs(a, k);
    DivDiv(Value(a, 0, |a|), Weight(k), p);
  }

  lemma RightQuotient(a: seq<Limb>, k: nat, p: nat, q: nat, r: seq<Limb>)
    requires IsRight(a, k, p, q, |a|, r) && k < |a|
    ensures Value(r, 0, |r|) == Value(a, k, |a|) / p
  {
    RightValue(a, k, p, q, r, |a| - k);
    RightRest(a, k, p, q, r);
    LowBitsBelow(a, p, k);
    QuotientIs(Value(a, k, |a|), p, Value(r, 0, |r|), LowBits(a, p, k));
  }

  lemma QuotientIs(v: int, p: int, u: int, l: int)
    requires 0 <= l < p && u * p + l == v
    ensures v / p == u
  {
    DivModIs(v, p, u, l);
  }

  lemma LowBitsBelow(a: seq<Limb>, p: nat, i: nat)
    requires p >= 1
    ensures LowBits(a, p, i) < p
  {
  }

  lemma RightRest(a: seq<Limb>, k: nat, p: nat, q: nat, r: seq<Limb>)
    requires IsRight(a, k, p, q, |a|, r) && k < |a|
    ensures Value(r, 0, |r|) == Value(r, 0, |a| - k)
  {
    ValueSplit(r, 0, |a| - k, |r|);
    ValueZero(r, |a| - k, |r|);
  }

  lemma DropLimbs(a: seq<Limb>, k: nat)
    requires k <= |a|
    ensures Value(a, 0, |a|) / Weight(k) == Value(a, k, |a|)
  {
    ValueSplit(a, 0, k, |a|);
    ValueBelow(a, 0, k);
    DivModIs(Value(a, 0, |a|), Weight(k), Value(a, k, |a|), Value(a, 0, k));
  }
}
