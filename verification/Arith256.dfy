// Unsigned arithmetic on a fixed number of 32-bit limbs, as in src/arith_uint256.cpp and src/arith_uint256.h. The width
// is a parameter, as it is of the source's template; arith_uint256 has eight limbs.
module Arith256 {
  import opened Bits
  import opened Limbs
  import opened LimbShifts
  import opened Wrappers

  const UINT64: int := 0x1_0000_0000_0000_0000

  datatype Error = DivisionByZero

  /** One carry step on the limbs: limb i becomes the low half of n, and the high half is carried. */
  lemma CarryAt(before: seq<Limb>, after: seq<Limb>, i: nat, n: int, carry: int)
    requires i < |before| == |after| && n >= 0 && after[i] == n % BASE && carry == n / BASE
    requires forall k :: 0 <= k < i ==> after[k] == before[k]
    ensures Value(after, 0, i + 1) + carry * Weight(i + 1) == Value(before, 0, i) + n * Weight(i)
  {
    ValueSame(before, after, 0, i);
    WeightNext(i);
    CarryStep(n, after[i], carry, Weight(i));
  }

  lemma Reduce(v: int, carry: int, total: int, m: int)
    requires 0 <= v < m && total == v + carry * m
    ensures v == total % m
  {
    DivModIs(total, m, carry, v);
  }

  /** The products that *= adds up fit in 64 bits. */
  lemma ProductFits(a: int, b: int, c: int, d: int)
    requires 0 <= a < BASE && 0 <= b < BASE && 0 <= c < BASE && 0 <= d < BASE
    ensures 0 <= c + d + a * b < UINT64
  {
    MulNonneg(a, b);
    MulNonneg(BASE - 1 - a, b);
    MulSub(b, BASE - 1, a);
  }

  class BaseUint {
    const width: nat
    var pn: seq<Limb>

    ghost predicate Valid()
      reads this
    {
      |pn| == width >= 2
    }

    ghost function Val(): nat
      requires Valid()
      reads this
    {
      Value(pn, 0, width)
    }

    /** Val stays below 2^256. */
    lemma ValBelow()
      requires Valid()
      ensures Val() < Weight(width)
    {
      ValueBelow(pn, 0, width);
    }

    constructor (width: nat, b: nat)
      requires width >= 2 && b < UINT64
      ensures Valid() && this.width == width && Val() == b
    {
      this.width := width;
      pn := FromWord(width, b);
      new;
      FromWordIs(width, b);
    }

    constructor Copy(b: BaseUint)
      requires b.Valid()
      ensures Valid() && width == b.width && pn == b.pn
    {
      width, pn := b.width, b.pn;
    }

    method Assign(b: nat)
      requires Valid() && b < UINT64
      modifies this
      ensures Valid() && Val() == b
    {
      pn := FromWord(width, b);
      FromWordIs(width, b);
    }

    /** += adds modulo 2^256, also when b is this same object. */
    method AddAssign(b: BaseUint)
      requires Valid() && b.Valid() && b.width == width
      modifies this
      ensures Valid() && Val() == (old(Val()) + old(b.Val())) % Weight(width)
    {
      ghost var x, y := pn, b.pn;
      var carry := 0;
      for i := 0 to width
        invariant Valid() && b.Valid() && 0 <= carry < BASE
        invariant forall k :: i <= k < width ==> pn[k] == x[k] && b.pn[k] == y[k]
        invariant Value(pn, 0, i) + carry * Weight(i) == Value(x, 0, i) + Value(y, 0, i)
      {
        var n := carry + pn[i] + b.pn[i];
        assert n < UINT64;
        ghost var before := pn;
        pn := pn[i := n % BASE];
        CarryAt(before, pn, i, n, n / BASE);
        Distribute3(carry, x[i], y[i], n, Weight(i));
        carry := n / BASE;
      }
      ValBelow();
      Reduce(Val(), carry, Value(x, 0, width) + Value(y, 0, width), Weight(width));
    }

    /** *= by a 32-bit number multiplies modulo 2^256. */
    method MulAssign32(b: Limb)
      requires Valid()
      modifies this
      ensures Valid() && Val() == old(Val()) * b % Weight(width)
    {
      ghost var x := pn;
      var carry := 0;
      for i := 0 to width
        invariant Valid() && 0 <= carry < BASE
        invariant forall k :: i <= k < width ==> pn[k] == x[k]
        invariant Value(pn, 0, i) + carry * Weight(i) == Value(x, 0, i) * b
      {
        var n := carry + b * pn[i];
        ProductFits(b, pn[i], carry, 0);
        assert n < UINT64;
        ghost var before := pn;
        pn := pn[i := n % BASE];
        CarryAt(before, pn, i, n, n / BASE);
        MulStep(Value(x, 0, i), x[i], Weight(i), b, carry, n, Value(x, 0, i + 1));
        HighHalf(n);
        carry := n / BASE;
      }
      ValBelow();
      Reduce(Val(), carry, Value(x, 0, width) * b, Weight(width));
    }

    /** Add a * 2^(32 j) * b; what overflows is dropped. */
    method MulRow(a: Limb, j: nat, b: BaseUint) returns (ghost lost: int)
      requires Valid() && b.Valid() && b.width == width && j < width
      modifies this
      ensures Valid() && (b != this ==> Val() + lost * Weight(width) == old(Val()) + a * Weight(j) * b.Val())
      ensures b == this && Zero(old(pn)) ==> pn == old(pn)
    {
      ghost var x := pn;
      var carry := 0;
      for i := 0 to width - j
        invariant Valid() && b.Valid() && 0 <= carry < BASE
        invariant forall k :: i + j <= k < width ==> pn[k] == x[k]
        invariant b != this ==>
          Value(pn, 0, i + j) + carry * Weight(i + j) == Value(x, 0, i + j) + a * Weight(j) * Value(b.pn, 0, i)
        invariant b == this && Zero(x) ==> pn == x && carry == 0
      {
        ProductFits(a, b.pn[i], carry, pn[i + j]);
        var n := carry + pn[i + j] + a * b.pn[i];
        assert n < UINT64;
        HighHalf(n);
        ghost var before := pn;
        pn := pn[i + j := n % BASE];
        if b != this {
          RowAt(before, pn, x, b.pn, i, j, a, carry, n);
        }
        carry := n / BASE;
      }
      if b != this {
        lost := carry + a * Value(b.pn, width - j, width);
        RowLast(Val(), Value(x, 0, width), b.pn, j, a, carry, lost);
      } else {
        lost := 0;
      }
    }

    /** *= multiplies modulo 2^BITS, unless b is this same object, which it has cleared: then the result is zero. */
    method MulAssign(b: BaseUint)
      requires Valid() && b.Valid() && b.width == width
      modifies this
      ensures Valid() && Val() == if b == this then 0 else old(Val()) * old(b.Val()) % Weight(width)
    {
      var a := pn;
      Assign(0);
      AllZeros(pn, width);
      ghost var lost := 0;
      for j := 0 to width
        invariant Valid() && b.Valid()
        invariant b != this ==> b.pn == old(b.pn) && Val() + lost * Weight(width) == Value(a, 0, j) * b.Val()
        invariant b == this ==> Zero(pn)
      {
        ghost var before, lostBefore := Val(), lost;
        ghost var more := MulRow(a[j], j, b);
        lost := lost + more;
        if b != this {
          RowsStep(Val(), before, lostBefore, more, Weight(width), Value(a, 0, j), a[j], Weight(j), b.Val(), lost,
                   Value(a, 0, j + 1));
        }
      }
      if b == this {
        ValueZero(pn, 0, width);
      } else {
        ValBelow();
        Reduce(Val(), lost, Value(a, 0, width) * b.Val(), Weight(width));
      }
    }

    /** ~ takes each limb's complement: 2^BITS - 1 - x. */
    method Complement() returns (r: BaseUint)
      requires Valid()
      ensures fresh(r) && r.Valid() && r.width == width && r.Val() == Weight(width) - 1 - Val()
    {
      r := new BaseUint(width, 0);
      for i := 0 to width
        invariant fresh(r) && r.Valid() && r.width == width
        invariant Value(r.pn, 0, i) + Value(pn, 0, i) == Weight(i) - 1
      {
        ghost var before := r.pn;
        r.pn := r.pn[i := BASE - 1 - pn[i]];
        ValueSame(before, r.pn, 0, i);
        WeightNext(i);
        ComplementStep(Value(before, 0, i), Value(pn, 0, i), pn[i], r.pn[i], Weight(i));
      }
    }

    /** Prefix ++ adds one modulo 2^BITS. */
    method Increment()
      requires Valid()
      modifies this
      ensures Valid() && Val() == (old(Val()) + 1) % Weight(width)
    {
      ghost var x := pn;
      var i := 0;
      pn := pn[i := (pn[i] + 1) % BASE];
      IncrementStep(x, pn, x, i);
      while pn[i] == 0 && i < width - 1
        invariant Valid() && i < width && forall k :: i < k < width ==> pn[k] == x[k]
        invariant Value(pn, 0, i + 1) + (if pn[i] == 0 then Weight(i + 1) else 0) == Value(x, 0, i + 1) + 1
        decreases width - i
      {
        i := i + 1;
        ghost var before := pn;
        pn := pn[i := (pn[i] + 1) % BASE];
        IncrementStep(before, pn, x, i);
      }
      UpperSame(x, pn, i + 1);
      ValBelow();
      Reduce(Val(), if pn[i] == 0 then 1 else 0, Value(x, 0, width) + 1, Weight(width));
    }

    /** Unary minus: 2^BITS - x, or zero. */
    method Negate() returns (r: BaseUint)
      requires Valid()
      ensures fresh(r) && r.Valid() && r.width == width && r.Val() == (Weight(width) - Val()) % Weight(width)
    {
      r := Complement();
      r.Increment();
    }

    /** -= subtracts modulo 2^BITS, also when b is this same object. */
    method SubAssign(b: BaseUint)
      requires Valid() && b.Valid() && b.width == width
      modifies this
      ensures Valid() && Val() == (old(Val()) - old(b.Val())) % Weight(width)
    {
      var minus := b.Negate();
      ValBelow();
      b.ValBelow();
      ghost var x, y := Val(), b.Val();
      AddAssign(minus);
      Wrapped(x, y, Weight(width), minus.Val(), Val());
    }

    /** CompareTo orders by value. */
    method CompareTo(b: BaseUint) returns (c: int)
      requires Valid() && b.Valid() && b.width == width
      ensures c == if Val() < b.Val() then -1 else if Val() > b.Val() then 1 else 0
    {
      var i := width - 1;
      while i >= 0
        invariant -1 <= i < width && forall k :: i < k < width ==> pn[k] == b.pn[k]
      {
        if pn[i] != b.pn[i] {
          if pn[i] < b.pn[i] {
            TopDecides(pn, b.pn, i);
            return -1;
          }
          TopDecides(b.pn, pn, i);
          return 1;
        }
        i := i - 1;
      }
      ValueSame(pn, b.pn, 0, width);
      c := 0;
    }

    /** <<= multiplies by 2^shift modulo 2^BITS. */
    method ShiftLeft(shift: nat)
      requires Valid()
      modifies this
      ensures Valid() && Val() == old(Val()) * Pow2(shift) % Weight(width)
    {
      var a := pn;
      pn := seq(width, _ => 0);
      var k, s := shift / 32, shift % 32;
      var p, q := Pow2(s), Pow2(32 - s);
      ShiftFactors(s);
      for i := 0 to width
        invariant Valid() && IsLeft(a, k, p, q, i, pn)
      {
        ghost var before := pn;
        LeftFits(a, k, s, i, before);
        if i + k + 1 < width && s != 0 {
          pn := pn[i + k + 1 := Or(pn[i + k + 1], a[i] / q)];
        }
        if i + k < width {
          pn := pn[i + k := Or(pn[i + k], a[i] * p % BASE)];
        }
        LeftMoved(a, k, s, i, before, pn);
      }
      LeftIsTimes(a, shift, pn);
    }

    /** >>= divides by 2^shift, rounding down. */
    method ShiftRight(shift: nat)
      requires Valid()
      modifies this
      ensures Valid() && Val() == old(Val()) / Pow2(shift)
    {
      var a := pn;
      pn := seq(width, _ => 0);
      var k, s := shift / 32, shift % 32;
      var p, q := Pow2(s), Pow2(32 - s);
      ShiftFactors(s);
      for i := 0 to width
        invariant Valid() && IsRight(a, k, p, q, i, pn)
      {
        ghost var before := pn;
        RightFits(a, k, s, i, before);
        if i - k - 1 >= 0 && s != 0 {
          pn := pn[i - k - 1 := Or(pn[i - k - 1], a[i] * q % BASE)];
        }
        if i - k >= 0 {
          pn := pn[i - k := Or(pn[i - k], a[i] / p)];
        }
        RightMoved(a, k, s, i, before, pn);
      }
      RightIsDiv(a, shift, pn);
    }

    /** GetLow64: the number modulo 2^64. */
    method GetLow64() returns (r: nat)
      requires Valid()
      ensures r == Val() % UINT64
    {
      r := pn[0] + pn[1] * BASE;
      LowWord(pn, 2);
    }

    /** == with a 64-bit number. */
    method EqualTo(b: nat) returns (equal: bool)
      requires Valid() && b < UINT64
      ensures equal <==> Val() == b
    {
      FromWordIs(width, b);
      if Val() == b { ValueUnique(pn, FromWord(width, b), width); }
      var i := width - 1;
      while i >= 2
        invariant 1 <= i < width && forall k :: i < k < width ==> pn[k] == 0
      {
        if pn[i] != 0 { return false; }
        i := i - 1;
      }
      if pn[1] != b / BASE { return false; }
      if pn[0] != b % BASE { return false; }
      ValueSame(pn, FromWord(width, b), 0, width);
      equal := true;
    }

    /** bits: how many binary digits the value has. */
    method CountBits() returns (n: nat)
      requires Valid()
      ensures n <= 32 * width && Val() < Pow2(n) && (n > 0 ==> Pow2(n - 1) <= Val())
    {
      var pos := width - 1;
      while pos >= 0
        invariant -1 <= pos < width && forall k :: pos < k < width ==> pn[k] == 0
      {
        if pn[pos] != 0 {
          var b := TopBit(pn[pos]);
          TopLimb(pn, pos, b);
          return 32 * pos + b + 1;
        }
        pos := pos - 1;
      }
      ValueZero(pn, 0, width);
      n := 0;
    }

    /** Set one bit of a quotient whose bits up to there are still clear. */
    method SetBit(shift: nat)
      requires Valid() && shift < 32 * width && LowClear(pn, shift + 1)
      modifies this
      ensures Valid() && LowClear(pn, shift) && Val() == old(Val()) + Pow2(shift)
    {
      SetBitAt(shift / 32, shift % 32);
    }

    method SetBitAt(w: nat, t: nat)
      requires Valid() && w < width && t < 32 && LowClear(pn, 32 * w + t + 1)
      modifies this
      ensures Valid() && LowClear(pn, 32 * w + t) && Val() == old(Val()) + Pow2(32 * w + t)
    {
      ghost var x := pn;
      ClearAt(x, w, t);
      BitAdds(x[w], t);
      pn := pn[w := Or(pn[w], Pow2(t))];
      BitValue(x, pn, w, t);
    }

    /** One bit of a long division: subtract the shifted divisor if it goes. */
    method DivideBit(num: BaseUint, div: BaseUint, shift: nat, ghost d: nat, ghost p: nat)
      requires Valid() && num.Valid() && div.Valid() && num.width == div.width == width
      requires this != num && this != div && num != div
      requires shift < 32 * width && LowClear(pn, shift + 1) && p == Pow2(shift)
      requires div.Val() == d * p && num.Val() < 2 * div.Val()
      modifies this, num
      ensures Valid() && num.Valid() && LowClear(pn, shift)
      ensures Val() * d + num.Val() == old(Val()) * d + old(num.Val()) && num.Val() < div.Val()
    {
      var c := num.CompareTo(div);
      DivStep(d, p, Val(), num.Val(), Val() + p);
      if c >= 0 {
        num.ValBelow();
        ghost var m := num.Val() - div.Val();
        DivModIs(m, Weight(width), 0, m);
        num.SubAssign(div);
        SetBit(shift);
      } else {
        StillClear(pn, shift);
      }
    }

    /** The long division, one bit of the quotient at a time. */
    method DivideBits(num: BaseUint, div: BaseUint, top: nat, ghost d: nat)
      requires Valid() && num.Valid() && div.Valid() && num.width == div.width == width
      requires this != num && this != div && num != div
      requires top < 32 * width && Zero(pn) && div.Val() == d * Pow2(top) && num.Val() < 2 * div.Val()
      modifies this, num, div
      ensures Valid() && num.Valid() && num.Val() < d && Val() * d + num.Val() == old(num.Val())
    {
      ValueZero(pn, 0, width);
      ZeroClear(pn, top + 1);
      var shift: int := top;
      while shift >= 0
        invariant -1 <= shift <= top && Valid() && div.Valid() && num.Valid()
        invariant LowClear(pn, shift + 1) && Val() * d + num.Val() == old(num.Val())
        invariant if shift >= 0 then div.Val() == d * Pow2(shift) && num.Val() < 2 * div.Val() else num.Val() < d
      {
        DivideBit(num, div, shift, d, Pow2(shift));
        HalfAgain(d, Pow2(shift), shift);
        ShiftByOne(div);
        shift := shift - 1;
      }
    }

    /**
     * /= divides, rounding down, and leaves the remainder in num; a zero divisor is an error, and then this is zero.
     */
    method DivAssign(b: BaseUint) returns (r: Result<(), Error>, ghost remainder: nat)
      requires Valid() && b.Valid() && b.width == width
      modifies this
      ensures Valid() && (r.Err? <==> old(b.Val()) == 0) && (r.Err? ==> Val() == 0)
      ensures r.Ok? ==> Val() == old(Val()) / old(b.Val()) && remainder == old(Val()) % old(b.Val())
    {
      var div := new BaseUint.Copy(b);
      var num := new BaseUint.Copy(this);
      ghost var n, d := Val(), b.Val();
      Assign(0);
      var numBits := num.CountBits();
      var divBits := div.CountBits();
      remainder := num.Val();
      if divBits == 0 { return Err(DivisionByZero), remainder; }
      if divBits > numBits {
        Pow2Grows(numBits, divBits - 1);
        DivModIs(n, d, 0, n);
        return Ok(()), remainder;
      }
      Aligned(d, n, divBits, numBits, width);
      div.ShiftLeft(numBits - divBits);
      AllZeros(pn, width);
      DivideBits(num, div, numBits - divBits, d);
      remainder := num.Val();
      DivModIs(n, d, Val(), remainder);
      r := Ok(());
    }
  }

  method ShiftByOne(x: BaseUint)
    requires x.Valid()
    modifies x
    ensures x.Valid() && x.Val() == old(x.Val()) / 2
  {
    x.ShiftRight(1);
  }

  lemma ZeroClear(s: seq<Limb>, n: nat)
    requires Zero(s)
    ensures LowClear(s, n)
  {
    if n / 32 < |s| { ZeroIsLow(n % 32); }
  }

  lemma LowWord(s: seq<Limb>, two: nat)
    requires two == 2 && |s| >= 2
    ensures Value(s, 0, |s|) % UINT64 == s[0] + s[1] * BASE
  {
    ValueSplit(s, 0, two, |s|);
    WeightNext(two - 1);
    WeightNext(two - 2);
    assert Value(s, 0, two) == Value(s, 0, two - 1) + s[1] * Weight(two - 1);
    assert Value(s, 0, two - 1) == Value(s, 0, two - 2) + s[0] * Weight(two - 2);
    DivModIs(Value(s, 0, |s|), UINT64, Value(s, two, |s|), s[0] + s[1] * BASE);
  }

  /** Different limbs, different values. */
  lemma {:induction false} ValueUnique(s: seq<Limb>, t: seq<Limb>, n: nat)
    requires n == |s| == |t| && Value(s, 0, n) == Value(t, 0, n)
    ensures s == t
  {
    if s != t {
      var i := TopDifference(s, t, n);
      if s[i] < t[i] { TopDecides(s, t, i); } else { TopDecides(t, s, i); }
    }
  }

  lemma {:induction false} TopDifference(s: seq<Limb>, t: seq<Limb>, n: nat) returns (i: nat)
    requires n <= |s| == |t| && s[..n] != t[..n] && forall k :: n <= k < |s| ==> s[k] == t[k]
    ensures i < n && s[i] != t[i] && forall k :: i < k < |s| ==> s[k] == t[k]
  {
    if s[n - 1] != t[n - 1] {
      i := n - 1;
    } else {
      assert s[..n] == s[..n - 1] + [s[n - 1]] && t[..n] == t[..n - 1] + [t[n - 1]];
      i := TopDifference(s, t, n - 1);
    }
  }

  lemma LimbBelow(x: Limb, n: nat)
    requires n == 32
    ensures x < Pow2(n)
  {
    Pow2Values();
  }

  lemma BitTest(x: nat, p: nat)
    requires p >= 1 && x < 2 * p
    ensures x / p % 2 == 1 <==> x >= p
  {
    if x >= p { DivModIs(x, p, 1, x - p); } else { DivModIs(x, p, 0, x); }
  }

  /** The highest bit of a limb that is not zero. */
  method TopBit(x: Limb) returns (b: nat)
    requires x > 0
    ensures b < 32 && Pow2(b) <= x < Pow2(b + 1)
  {
    b := 31;
    LimbBelow(x, b + 1);
    while b > 0
      invariant b < 32 && x < Pow2(b + 1)
    {
      AndPow2(x, b);
      BitTest(x, Pow2(b));
      if And(x, Pow2(b)) != 0 { return; }
      b := b - 1;
    }
  }

  lemma TopLimb(s: seq<Limb>, pos: nat, b: nat)
    requires pos < |s| && b < 32 && Pow2(b) <= s[pos] < Pow2(b + 1) && forall k :: pos < k < |s| ==> s[k] == 0
    ensures Pow2(32 * pos + b) <= Value(s, 0, |s|) < Pow2(32 * pos + b + 1)
  {
    ValueSplit(s, 0, pos + 1, |s|);
    ValueZero(s, pos + 1, |s|);
    ValueBelow(s, 0, pos);
    WeightIsPow2(pos);
    Pow2Add(b, 32 * pos);
    Pow2Add(b + 1, 32 * pos);
    TopLimbScalar(Value(s, 0, pos), s[pos], Pow2(b), Pow2(b + 1), Weight(pos));
  }

  lemma TopLimbScalar(v: int, x: int, p: int, q: int, w: int)
    requires 0 <= v < w && p <= x < q
    ensures p * w <= v + x * w < q * w
  {
    MulSub(w, x, p);
    MulNonneg(w, x - p);
    MulSub(w, q, x);
    MulAtLeast(w, q - x);
  }

  /** The t low bits of x are clear. */
  predicate LowZero(x: nat, t: nat) { t == 0 || (x % 2 == 0 && LowZero(x / 2, t - 1)) }

  lemma {:induction false} LowZeroIs(x: nat, t: nat)
    ensures LowZero(x, t) <==> x % Pow2(t) == 0
  {
    if t > 0 {
      LowZeroIs(x / 2, t - 1);
      var p := Pow2(t - 1);
      if x % 2 == 0 { ScaledMod(x / 2, p, 2, x, 2 * p); } else { OddMod(x, 2 * p, p); }
    }
  }

  lemma {:induction false} LowZeroLess(x: nat, t: nat)
    requires LowZero(x, t + 1)
    ensures LowZero(x, t)
  {
    if t > 0 { LowZeroLess(x / 2, t - 1); }
  }

  lemma {:induction false} ZeroIsLow(t: nat)
    ensures LowZero(0, t)
  {
    if t > 0 { ZeroIsLow(t - 1); }
  }

  /** No bit below the n-th is set. */
  predicate LowClear(s: seq<Limb>, n: nat) {
    (forall m :: 0 <= m < |s| && 32 * m + 32 <= n ==> s[m] == 0) && (n / 32 < |s| ==> LowZero(s[n / 32], n % 32))
  }

  lemma HalfMultiple(x: nat, p: nat)
    requires p >= 1 && x % (2 * p) == 0
    ensures x % p == 0 && (x + p) % p == 0
  {
    var q := x / (2 * p);
    assert x == (2 * p) * q == p * (2 * q);
    DivModIs(x, p, 2 * q, 0);
    assert p * (2 * q) + p == p * (2 * q + 1);
    DivModIs(x + p, p, 2 * q + 1, 0);
  }

  lemma StillClear(s: seq<Limb>, n: nat)
    requires LowClear(s, n + 1) || LowClear(s, n)
    ensures LowClear(s, n)
  {
    if LowClear(s, n + 1) && n / 32 < |s| {
      if n % 32 < 31 {
        LowZeroLess(s[n / 32], n % 32);
      } else {
        ZeroIsLow(n % 32);
      }
    }
  }

  lemma PlaceOf(w: nat, t: nat)
    requires t < 32
    ensures (32 * w + t) / 32 == w && (32 * w + t) % 32 == t
  {}

  /** What is clear below a bit of limb w. */
  lemma ClearAt(s: seq<Limb>, w: nat, t: nat)
    requires w < |s| && t < 32 && LowClear(s, 32 * w + t + 1)
    ensures LowZero(s[w], t + 1) && forall m :: 0 <= m < w ==> s[m] == 0
  {
    if t == 31 { ZeroIsLow(t + 1); } else { PlaceOf(w, t + 1); }
  }

  lemma BitAdds(x: Limb, t: nat)
    requires t < 32 && LowZero(x, t + 1)
    ensures Or(x, Pow2(t)) == x + Pow2(t) < BASE && LowZero(x + Pow2(t), t)
  {
    LowZeroIs(x, t + 1);
    BitAddsTo(x, t);
    LowZeroIs(x + Pow2(t), t);
  }

  lemma BitAddsTo(x: Limb, t: nat)
    requires t < 32 && x % Pow2(t + 1) == 0
    ensures Or(x, Pow2(t)) == x + Pow2(t) < BASE && (x + Pow2(t)) % Pow2(t) == 0
  {
    OrLow(Pow2(t), x, t + 1);
    ShiftFactors(t + 1);
    SumFits(x, Pow2(t), Pow2(t + 1), Pow2(32 - (t + 1)));
    HalfMultiple(x, Pow2(t));
  }

  lemma BitValue(x: seq<Limb>, y: seq<Limb>, w: nat, t: nat)
    requires w < |x| && t < 32 && LowClear(x, 32 * w + t + 1)
    requires x[w] + Pow2(t) < BASE && y == x[w := x[w] + Pow2(t)]
    ensures LowClear(y, 32 * w + t) && Value(y, 0, |y|) == Value(x, 0, |x|) + Pow2(32 * w + t)
  {
    ClearAt(x, w, t);
    BitAdds(x[w], t);
    PlaceOf(w, t);
    BitAdded(x, y, w, t);
  }

  lemma BitAdded(x: seq<Limb>, y: seq<Limb>, w: nat, t: nat)
    requires w < |x| && t < 32 && x[w] + Pow2(t) < BASE && y == x[w := x[w] + Pow2(t)]
    ensures Value(y, 0, |y|) == Value(x, 0, |x|) + Pow2(32 * w + t)
  {
    UpperSame(x, y, w + 1);
    ValueSame(x, y, 0, w);
    WeightIsPow2(w);
    Pow2Add(t, 32 * w);
    Distribute3(x[w], Pow2(t), 0, y[w], Weight(w));
  }

  /** The divisor, shifted to the length of the number, still fits. */
  lemma Aligned(d: nat, n: nat, divBits: nat, numBits: nat, width: nat)
    requires 0 < divBits <= numBits <= 32 * width && d < Pow2(divBits) && n < Pow2(numBits) && Pow2(divBits - 1) <= d
    ensures d * Pow2(numBits - divBits) % Weight(width) == d * Pow2(numBits - divBits)
    ensures n < 2 * (d * Pow2(numBits - divBits))
  {
    var shift := numBits - divBits;
    Pow2Add(divBits, shift);
    Pow2Add(divBits - 1, shift + 1);
    WeightIsPow2(width);
    Pow2Grows(numBits, 32 * width);
    AlignedScalar(d, Pow2(shift), Pow2(divBits), Pow2(divBits - 1), Pow2(shift + 1));
    assert d * Pow2(shift + 1) == 2 * (d * Pow2(shift)) by { HalfAgain(d, Pow2(shift + 1), shift + 1); }
    DivModIs(d * Pow2(shift), Weight(width), 0, d * Pow2(shift));
  }

  lemma AlignedScalar(d: int, s: int, p: int, q: int, t: int)
    requires 0 <= q <= d < p && s >= 1 && t >= 1
    ensures 0 <= d * s < p * s && q * t <= d * t
  {
    MulNonneg(d, s);
    MulSub(s, p, d);
    MulAtLeast(s, p - d);
    MulSub(t, d, q);
    MulNonneg(t, d - q);
  }

  lemma DivStep(d: int, p: int, q: int, n: int, r: int)
    requires r == q + p
    ensures r * d + (n - d * p) == q * d + n
  {
    assert (q + p) * d == q * d + d * p;
  }

  lemma HalfAgain(d: nat, p: nat, shift: nat)
    requires p == Pow2(shift)
    ensures if shift == 0 then d * p == d else d * p == 2 * (d * Pow2(shift - 1))
  {
    if shift > 0 {
      assert p == 2 * Pow2(shift - 1);
      assert d * (2 * Pow2(shift - 1)) == 2 * (d * Pow2(shift - 1));
    }
  }

  lemma {:induction false} OrZero(x: nat)
    ensures Or(0, x) == x
  {
    OrIsSum(0, x);
  }

  /** A multiple of p and a number below p, both below the base, which p divides, add up to less than the base. */
  lemma SumFits(u: nat, v: nat, p: nat, q: nat)
    requires Factors(p, q) && u < BASE && u % p == 0 && v < p
    ensures u + v < BASE
  {
    var h := u / p;
    assert u == p * h;
    if h >= q {
      MulSub(p, h, q);
      MulNonneg(p, h - q);
    } else {
      MulSub(p, q, h);
      MulAtLeast(p, q - h);
    }
  }

  /** The two halves that meet in limb i + k do not overlap. */
  lemma LeftFits(a: seq<Limb>, k: nat, s: nat, i: nat, r: seq<Limb>)
    requires s < 32 && IsLeft(a, k, Pow2(s), Pow2(32 - s), i, r) && i < |a|
    ensures i + k + 1 < |a| ==>
      r[i + k + 1] == 0 && Or(0, MovedLeft(a[i], Pow2(32 - s))) == MovedLeft(a[i], Pow2(32 - s)) < BASE
    ensures i + k < |a| ==> Or(r[i + k], KeptLeft(a[i], Pow2(s))) == r[i + k] + KeptLeft(a[i], Pow2(s)) < BASE
  {
    var p, q := Pow2(s), Pow2(32 - s);
    OrZero(MovedLeft(a[i], q));
    LeftHalves(a[i], p, q);
    if i + k < |a| {
      assert r[i + k] == LeftLimb(a, k, p, q, i, i + k);
      if i > 0 { LeftHalves(a[i - 1], p, q); }
      OrLow(r[i + k], KeptLeft(a[i], p), s);
      SumFits(KeptLeft(a[i], p), r[i + k], p, q);
    }
  }

  lemma LeftMoved(a: seq<Limb>, k: nat, s: nat, i: nat, r: seq<Limb>, t: seq<Limb>)
    requires s < 32 && IsLeft(a, k, Pow2(s), Pow2(32 - s), i, r) && i < |a| == |t|
    requires forall m :: 0 <= m < |t| && m != i + k && m != i + k + 1 ==> t[m] == r[m]
    requires i + k + 1 < |a| ==>
      t[i + k + 1] == if s != 0 then Or(r[i + k + 1], MovedLeft(a[i], Pow2(32 - s))) else r[i + k + 1]
    requires i + k < |a| ==> t[i + k] == Or(r[i + k], KeptLeft(a[i], Pow2(s)))
    ensures IsLeft(a, k, Pow2(s), Pow2(32 - s), i + 1, t)
  {
    LeftFits(a, k, s, i, r);
    LeftHalves(a[i], Pow2(s), Pow2(32 - s));
  }

  lemma RightFits(a: seq<Limb>, k: nat, s: nat, i: nat, r: seq<Limb>)
    requires s < 32 && IsRight(a, k, Pow2(s), Pow2(32 - s), i, r) && i < |a|
    ensures k <= i ==> r[i - k] == 0 && Or(0, KeptRight(a[i], Pow2(s))) == KeptRight(a[i], Pow2(s)) < BASE
    ensures k < i ==>
      Or(r[i - k - 1], MovedRight(a[i], Pow2(32 - s))) == r[i - k - 1] + MovedRight(a[i], Pow2(32 - s)) < BASE
  {
    var p, q := Pow2(s), Pow2(32 - s);
    OrZero(KeptRight(a[i], p));
    RightHalves(a[i], p, q);
    if k <= i { assert r[i - k] == RightLimb(a, k, p, q, i, i - k); }
    if k < i {
      assert r[i - k - 1] == RightLimb(a, k, p, q, i, i - k - 1);
      RightPair(a[i - 1], a[i], s);
    }
  }

  lemma RightPair(x: Limb, y: Limb, s: nat)
    requires s < 32
    ensures var (u, v) := (KeptRight(x, Pow2(s)), MovedRight(y, Pow2(32 - s))); Or(u, v) == u + v < BASE
  {
    var p, q := Pow2(s), Pow2(32 - s);
    ShiftFactors(s);
    RightHalves(x, p, q);
    RightHalves(y, p, q);
    OrLow(KeptRight(x, p), MovedRight(y, q), 32 - s);
    SumFits(MovedRight(y, q), KeptRight(x, p), q, p);
  }

  lemma RightMoved(a: seq<Limb>, k: nat, s: nat, i: nat, r: seq<Limb>, t: seq<Limb>)
    requires s < 32 && IsRight(a, k, Pow2(s), Pow2(32 - s), i, r) && i < |a| == |t|
    requires forall m :: 0 <= m < |t| && m != i - k && m != i - k - 1 ==> t[m] == r[m]
    requires k < i ==> t[i - k - 1] == if s != 0 then Or(r[i - k - 1], MovedRight(a[i], Pow2(32 - s))) else r[i - k - 1]
    requires k <= i ==> t[i - k] == Or(r[i - k], KeptRight(a[i], Pow2(s)))
    ensures IsRight(a, k, Pow2(s), Pow2(32 - s), i + 1, t)
  {
    RightFits(a, k, s, i, r);
    RightHalves(a[i], Pow2(s), Pow2(32 - s));
  }

  lemma TopDecides(s: seq<Limb>, t: seq<Limb>, i: nat)
    requires i < |s| == |t| && s[i] < t[i] && forall k :: i < k < |s| ==> s[k] == t[k]
    ensures Value(s, 0, |s|) < Value(t, 0, |t|)
  {
    UpperSame(s, t, i + 1);
    ValueBelow(s, 0, i);
    TopScalar(Value(s, 0, i), Value(t, 0, i), s[i], t[i], Weight(i));
  }

  lemma TopScalar(u: int, v: int, a: int, b: int, w: int)
    requires 0 <= u < w && 0 <= v && a < b
    ensures u + a * w < v + b * w
  {
    MulSub(w, b, a);
    MulAtLeast(w, b - a);
  }

  lemma ComplementStep(u: int, v: int, x: int, y: int, w: int)
    requires u + v == w - 1 && y == BASE - 1 - x
    ensures (u + y * w) + (v + x * w) == BASE * w - 1
  {
    MulSub(w, BASE - 1, x);
  }

  lemma IncrementStep(before: seq<Limb>, after: seq<Limb>, x: seq<Limb>, i: nat)
    requires i < |x| == |before| == |after| && after == before[i := (before[i] + 1) % BASE] && before[i] == x[i]
    requires Value(before, 0, i) + Weight(i) == Value(x, 0, i) + 1
    ensures Value(after, 0, i + 1) + (if after[i] == 0 then Weight(i + 1) else 0) == Value(x, 0, i + 1) + 1
  {
    ValueSame(before, after, 0, i);
    WeightNext(i);
    NextLimb(x[i]);
    OneMore(Value(before, 0, i), Value(x, 0, i), after[i], x[i], Weight(i), Weight(i + 1), Value(after, 0, i + 1),
            Value(x, 0, i + 1));
  }

  lemma NextLimb(x: int)
    requires 0 <= x < BASE
    ensures (x + 1) % BASE == if x == BASE - 1 then 0 else x + 1
  {}

  lemma OneMore(u: int, v: int, y: int, x: int, w: int, w': int, total: int, before: int)
    requires total == u + y * w && before == v + x * w && u + w == v + 1 && w' == BASE * w
    requires (x == BASE - 1 && y == 0) || (x != BASE - 1 && y == x + 1 && y != 0)
    ensures total + (if y == 0 then w' else 0) == before + 1
  {
    if y != 0 { assert (x + 1) * w == x * w + w; } else { assert BASE * w == (BASE - 1) * w + w; }
  }

  lemma Wrapped(x: int, y: int, m: int, n: int, r: int)
    requires 0 <= x < m && 0 <= y < m && n == (m - y) % m && r == (x + n) % m
    ensures r == (x - y) % m
  {
    if y == 0 {
      DivModIs(m, m, 1, 0);
    } else {
      DivModIs(m - y, m, 0, m - y);
      if x >= y {
        DivModIs(x + (m - y), m, 1, x - y);
        DivModIs(x - y, m, 0, x - y);
      } else {
        DivModIs(x + (m - y), m, 0, x + (m - y));
        DivModIs(x - y, m, -1, x - y + m);
      }
    }
  }

  lemma {:induction false} AllZeros(s: seq<Limb>, n: nat)
    requires n <= |s| && Value(s, 0, n) == 0
    ensures forall i :: 0 <= i < n ==> s[i] == 0
  {
    if n > 0 {
      MulNonneg(s[n - 1], Weight(n - 1));
      if s[n - 1] > 0 { MulAtLeast(Weight(n - 1), s[n - 1]); }
      AllZeros(s, n - 1);
    }
  }

  lemma RowAt(before: seq<Limb>, after: seq<Limb>, x: seq<Limb>, b: seq<Limb>, i: nat, j: nat, a: Limb, carry: int,
              n: int)
    requires |before| == |after| == |x| == |b| && i + j < |x| && before[i + j] == x[i + j]
    requires n == carry + x[i + j] + a * b[i] && n >= 0 && after == before[i + j := n % BASE]
    requires Value(before, 0, i + j) + carry * Weight(i + j) == Value(x, 0, i + j) + a * Weight(j) * Value(b, 0, i)
    ensures Value(after, 0, i + j + 1) + n / BASE * Weight(i + j + 1)
      == Value(x, 0, i + j + 1) + a * Weight(j) * Value(b, 0, i + 1)
  {
    CarryAt(before, after, i + j, n, n / BASE);
    WeightAdd(i, j);
    RowStep(Value(before, 0, i + j), Value(x, 0, i + j), Value(b, 0, i), carry, x[i + j], a, b[i], Weight(i), Weight(j),
            Weight(i + j), n,
            Value(b, 0, i + 1));
  }

  lemma RowLast(u: int, v: int, b: seq<Limb>, j: nat, a: Limb, carry: int, lost: int)
    requires j <= |b| && lost == carry + a * Value(b, |b| - j, |b|)
    requires u + carry * Weight(|b|) == v + a * Weight(j) * Value(b, 0, |b| - j)
    ensures u + lost * Weight(|b|) == v + a * Weight(j) * Value(b, 0, |b|)
  {
    var n := |b| - j;
    ValueSplit(b, 0, n, |b|);
    WeightAdd(n, j);
    RowEnd(u, v, Value(b, 0, n), Value(b, n, |b|), Value(b, 0, |b|), carry, a, Weight(n), Weight(j), Weight(|b|), lost);
  }

  lemma RowStep(u: int, v: int, y: int, carry: int, x: int, a: int, b: int, wi: int, wj: int, w: int, n: int, z: int)
    requires w == wi * wj && u + carry * w == v + a * wj * y && n == carry + x + a * b && z == y + b * wi
    ensures u + n * w == (v + x * w) + a * wj * z
  {
    assert (carry + x + a * b) * w == carry * w + x * w + (a * b) * w;
    assert a * wj * (y + b * wi) == a * wj * y + (a * b) * (wi * wj);
  }

  lemma RowEnd(u: int, v: int, low: int, high: int, y: int, carry: int, a: int, w: int, wj: int, m: int, lost: int)
    requires m == w * wj && u + carry * m == v + a * wj * low && y == low + w * high && lost == carry + a * high
    ensures u + lost * m == v + a * wj * y
  {
    assert (carry + a * high) * m == carry * m + (a * high) * m;
    assert a * wj * (low + w * high) == a * wj * low + (a * high) * (w * wj);
  }

  lemma RowsStep(after: int, before: int, lost: int, more: int, w: int, v: int, a: int, wj: int, b: int, all: int,
                 z: int)
    requires before + lost * w == v * b && after + more * w == before + a * wj * b && all == lost + more
    requires z == v + a * wj
    ensures after + all * w == z * b
  {
    assert (lost + more) * w == lost * w + more * w;
    assert (v + a * wj) * b == v * b + a * wj * b;
  }

  lemma HighHalf(n: int)
    requires 0 <= n < UINT64
    ensures 0 <= n / BASE < BASE
  {
  }

  function FromWord(width: nat, b: nat): (s: seq<Limb>)
    requires width >= 2 && b < UINT64
    ensures |s| == width
  {
    HighHalf(b);
    [b % BASE, b / BASE] + seq(width - 2, _ => 0)
  }

  lemma FromWordIs(width: nat, b: nat)
    requires width >= 2 && b < UINT64
    ensures Value(FromWord(width, b), 0, width) == b
  {
    var s := FromWord(width, b);
    LowTwo(s, width, 1);
  }

  lemma LowTwo(s: seq<Limb>, width: nat, one: nat)
    requires |s| == width && one == 1 && width >= 2 && forall i :: 2 <= i < width ==> s[i] == 0
    ensures Value(s, 0, width) == s[0] + BASE * s[1]
  {
    ValueSplit(s, 0, one + 1, width);
    ValueZero(s, one + 1, width);
    WeightNext(one - 1);
    assert Value(s, 0, one) == Value(s, 0, one - 1) + s[0] * Weight(one - 1);
    assert Value(s, 0, one - 1) == 0;
    assert Value(s, 0, one + 1) == Value(s, 0, one) + s[1] * Weight(one);
  }

  lemma Distribute3(a: int, b: int, c: int, n: int, w: int)
    requires n == a + b + c
    ensures n * w == a * w + b * w + c * w
  {
    assert (a + b + c) * w == a * w + b * w + c * w;
  }

  lemma MulStep(v: int, x: int, w: int, b: int, carry: int, n: int, z: int)
    requires n == carry + b * x && z == v + x * w
    ensures z * b == v * b + n * w - carry * w
  {
    assert (v + x * w) * b == v * b + (b * x) * w;
    assert (carry + b * x) * w == carry * w + (b * x) * w;
  }

  // ---------------------------------------------------------------- a number multiplied by itself

  lemma ScaledMod(a: int, m: int, c: int, ca: int, cm: int)
    requires m > 0 && c > 0 && ca == c * a && cm == c * m
    ensures cm > 0 && ca % cm == c * (a % m)
  {
    var q, r := a / m, a % m;
    MulNonneg(c, r);
    MulNonneg(c - 1, m);
    MulSub(c, m, r);
    MulNonneg(c - 1, m - r);
    assert c * a == c * (m * q + r) == (c * m) * q + c * r;
    assert c * m - c * r == (c - 1) * (m - r) + (m - r);
    assert c * m == (c - 1) * m + m;
    DivModIs(ca, cm, q, c * r);
  }

  /** Odd numbers stay odd modulo an even number. */
  lemma OddMod(a: int, m: int, m': int)
    requires a % 2 == 1 && m > 0 && m == 2 * m'
    ensures a % m != 0
  {
    assert a == m * (a / m) + a % m == 2 * (m' * (a / m)) + a % m;
  }

  /** The square of a number vanishes modulo 2^2k if and only if the number vanishes modulo 2^k. */
  lemma {:induction false} SquareVanishes(v: nat, k: nat)
    ensures v * v % Pow2(2 * k) == 0 <==> v % Pow2(k) == 0
  {
    if k > 0 {
      var m, n := Pow2(k - 1), Pow2(2 * k - 2);
      assert Pow2(k) == 2 * m && Pow2(2 * k) == 2 * Pow2(2 * k - 1) && Pow2(2 * k - 1) == 2 * n;
      if v % 2 == 1 {
        OddSquare(v);
        OddMod(v * v, Pow2(2 * k), 2 * n);
        OddMod(v, Pow2(k), m);
      } else {
        var u := v / 2;
        assert v == 2 * u;
        SquareVanishes(u, k - 1);
        assert v * v == 4 * (u * u);
        ScaledMod(u * u, n, 4, v * v, Pow2(2 * k));
        ScaledMod(u, m, 2, v, Pow2(k));
      }
    }
  }

  lemma OddSquare(v: nat)
    requires v % 2 == 1
    ensures v * v % 2 == 1
  {
    var u := v / 2;
    assert v == 2 * u + 1;
    assert v * v == 2 * (2 * u * u + 2 * u) + 1;
  }

  /** x *= x: the result is zero, which is the square modulo 2^BITS if and only if the low half of x is zero. */
  method SquareInPlace(x: BaseUint)
    requires x.Valid()
    modifies x
    ensures x.Valid() && x.Val() == 0
    ensures x.Val() == old(x.Val()) * old(x.Val()) % Weight(x.width) <==> old(x.Val()) % Pow2(16 * x.width) == 0
  {
    ghost var v := x.Val();
    WeightIsPow2(x.width);
    SquareVanishes(v, 16 * x.width);
    x.MulAssign(x);
  }

  /** Two times itself is zero. */
  method TwoTimesItself() returns (x: BaseUint)
    ensures fresh(x) && x.Valid() && x.width == 8 && x.Val() == 0 != 2 * 2 % Weight(x.width)
  {
    x := new BaseUint(8, 2);
    WeightNext(x.width - 1);
    assert 2 * 2 % Weight(x.width) == 4 by { DivModIs(4, Weight(x.width), 0, 4); }
    SquareInPlace(x);
  }
}
