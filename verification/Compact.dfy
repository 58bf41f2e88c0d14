// The compact target format of src/arith_uint256.cpp, and the block proof of src/block_index.cpp built on it.
module Compact {
  import opened Bits
  import opened Limbs
  import opened Arith256

  const UINT32: nat := 0x1_0000_0000

  // ---------------------------------------------------------------- the format

  function Exponent(c: nat): nat { c / 0x100_0000 }
  function Mantissa(c: nat): nat { c % 0x80_0000 }
  predicate SignBit(c: nat) { c / 0x80_0000 % 2 == 1 }

  /** 256^n. */
  function Bytes(n: nat): (r: nat)
    ensures r >= 1
  {
    if n == 0 then 1 else 256 * Bytes(n - 1)
  }

  lemma {:induction false} BytesIsPow2(n: nat)
    ensures Bytes(n) == Pow2(8 * n)
  {
    if n > 0 {
      BytesIsPow2(n - 1);
      Pow2Add(8, 8 * (n - 1));
      Pow2Values();
    }
  }

  /** The number that a compact form stands for: mantissa * 256^(exponent - 3), rounded down. */
  function Expand(c: nat): nat {
    if Exponent(c) <= 3 then Over(Mantissa(c), Bytes(3 - Exponent(c))) else Times(Mantissa(c), Bytes(Exponent(c) - 3))
  }

  /** The number of bytes of x. */
  predicate IsSize(x: nat, size: nat) { x < Bytes(size) && (size > 0 ==> Bytes(size - 1) <= x) }

  /** The three leading bytes of x. */
  function Leading(x: nat, size: nat): nat {
    if size <= 3 then Times(x, Bytes(3 - size)) else Over(x, Bytes(size - 3))
  }

  /** When the leading bit would look like a sign, one byte fewer is kept. */
  function Kept(x: nat, size: nat): nat {
    if Leading(x, size) >= 0x80_0000 then Leading(x, size) / 256 else Leading(x, size)
  }

  function PackedSize(x: nat, size: nat): nat { if Leading(x, size) >= 0x80_0000 then size + 1 else size }

  /** The compact form of a number of the given size. */
  function Pack(x: nat, size: nat, negative: bool): nat { Fields(Kept(x, size), PackedSize(x, size), negative) }

  function Fields(m: nat, s: nat, negative: bool): nat {
    m + s * 0x100_0000 + if negative && m != 0 then 0x80_0000 else 0
  }

  lemma FieldsRead(m: nat, s: nat, negative: bool)
    requires m < 0x80_0000
    ensures var c := Fields(m, s, negative);
      Mantissa(c) == m && Exponent(c) == s && (SignBit(c) <==> negative && m != 0)
  {
  }

  lemma {:induction false} BytesAdd(a: nat, b: nat)
    ensures Bytes(a + b) == Bytes(a) * Bytes(b)
  {
    if a > 0 {
      BytesAdd(a - 1, b);
      assert Bytes(a) * Bytes(b) == 256 * (Bytes(a - 1) * Bytes(b));
    }
  }

  lemma {:induction false} BytesGrow(a: nat, b: nat)
    requires a <= b
    ensures Bytes(a) <= Bytes(b)
  {
    if a < b { BytesGrow(a, b - 1); }
  }

  lemma SizeUnique(x: nat, s: nat, t: nat)
    requires IsSize(x, s) && IsSize(x, t)
    ensures s == t
  {
    if s < t { BytesGrow(s, t - 1); }
    if t < s { BytesGrow(t, s - 1); }
  }

  lemma LeadingBelow(x: nat, size: nat)
    requires IsSize(x, size)
    ensures Leading(x, size) < 0x100_0000 && Kept(x, size) < 0x80_0000
  {
    if size <= 3 {
      BytesAdd(size, 3 - size);
      BelowTimes(x, Bytes(size), Bytes(3 - size));
    } else {
      BytesAdd(3, size - 3);
      BelowOver(x, 0x100_0000, Bytes(size - 3));
    }
  }

  lemma BelowTimes(x: nat, b: nat, w: nat)
    requires x < b && w >= 1
    ensures x * w < b * w
  {
    MulSub(w, b, x);
    MulAtLeast(w, b - x);
  }

  lemma BelowOver(x: nat, b: nat, w: nat)
    requires w >= 1 && x < b * w
    ensures x / w < b
  {
    DivBounds(x, w);
    if x / w >= b {
      MulSub(w, x / w, b);
      MulNonneg(w, x / w - b);
    }
  }

  /** The fields of a packed number. */
  lemma PackFields(x: nat, size: nat, negative: bool)
    requires IsSize(x, size)
    ensures var c := Pack(x, size, negative);
      && Mantissa(c) == Kept(x, size) && Exponent(c) == PackedSize(x, size)
      && (SignBit(c) <==> negative && Kept(x, size) != 0)
  {
    LeadingBelow(x, size);
    FieldsRead(Kept(x, size), PackedSize(x, size), negative);
  }

  /** What is kept is x without its low bytes, or x with zero bytes appended. */
  lemma KeptIs(x: nat, size: nat)
    requires IsSize(x, size)
    ensures var s := PackedSize(x, size);
      Kept(x, size) == if s <= 3 then Times(x, Bytes(3 - s)) else Over(x, Bytes(s - 3))
  {
    if Leading(x, size) >= 0x80_0000 {
      if size < 3 {
        BytesAdd(1, 2 - size);
        HalfAway(x, Bytes(2 - size));
      } else if size == 3 {
        assert Bytes(0) == 1 && Bytes(1) == 256;
      } else {
        BytesAdd(size - 3, 1);
        DivDiv(x, Bytes(size - 3), 256);
      }
    }
  }

  lemma HalfAway(x: nat, w: nat)
    ensures x * (256 * w) / 256 == x * w
  {
    assert x * (256 * w) == 256 * (x * w);
  }

  /** Unpacking drops low bytes only: exactly those beyond the leading bytes that were kept. */
  lemma ExpandPack(x: nat, size: nat, negative: bool)
    requires IsSize(x, size)
    ensures var s := PackedSize(x, size);
      Expand(Pack(x, size, negative)) == if s <= 3 then x else x / Bytes(s - 3) * Bytes(s - 3)
  {
    PackFields(x, size, negative);
    KeptIs(x, size);
    var s := PackedSize(x, size);
    if s <= 3 { DivModIs(x * Bytes(3 - s), Bytes(3 - s), x, 0); }
  }

  /** Dropping low bytes. */
  function Trimmed(x: nat, n: nat): nat { Times(Over(x, Bytes(n)), Bytes(n)) }

  lemma TrimmedIs(x: nat, n: nat)
    ensures Trimmed(x, n) <= x < Trimmed(x, n) + Bytes(n) && Over(Trimmed(x, n), Bytes(n)) == Over(x, Bytes(n))
  {
    var w, q := Bytes(n), Over(x, Bytes(n));
    DivBounds(x, w);
    DivModIs(q * w, w, q, 0);
  }

  /** A number keeps its size as long as its leading byte is kept. */
  lemma TrimmedSize(x: nat, size: nat, n: nat)
    requires IsSize(x, size) && n < size
    ensures IsSize(Trimmed(x, n), size)
  {
    TrimmedIs(x, n);
    var w, u := Bytes(n), Bytes(size - 1 - n);
    BytesAdd(size - 1 - n, n);
    AtLeastOver(x, u, w);
    MulSub(w, Over(x, w), u);
    MulNonneg(w, Over(x, w) - u);
  }

  lemma AtLeastOver(x: nat, b: nat, w: nat)
    requires w >= 1 && b * w <= x
    ensures b <= x / w
  {
    DivBounds(x, w);
    if x / w < b {
      MulSub(w, b, x / w);
      MulAtLeast(w, b - x / w);
    }
  }

  /** Packing again what was unpacked gives the same compact form. */
  lemma PackTwice(x: nat, size: nat, negative: bool)
    requires IsSize(x, size)
    ensures var d := Expand(Pack(x, size, negative));
      d <= x && IsSize(d, size) && Pack(d, size, negative) == Pack(x, size, negative)
  {
    ExpandPack(x, size, negative);
    var s := PackedSize(x, size);
    if s > 3 {
      var d := Trimmed(x, s - 3);
      TrimmedIs(x, s - 3);
      TrimmedSize(x, size, s - 3);
      TrimmedKept(x, size, s, d);
      SamePacked(x, d, size, negative);
    }
  }

  lemma SamePacked(x: nat, d: nat, size: nat, negative: bool)
    requires PackedSize(d, size) == PackedSize(x, size) && Kept(d, size) == Kept(x, size)
    ensures Pack(d, size, negative) == Pack(x, size, negative)
  {}

  lemma TrimmedKept(x: nat, size: nat, s: nat, d: nat)
    requires IsSize(x, size) && s == PackedSize(x, size) > 3 && d == Trimmed(x, s - 3)
    ensures PackedSize(d, size) == PackedSize(x, size) && Kept(d, size) == Kept(x, size)
  {
    if s == size { KeptTrimmed(x, size); } else if size == 3 { KeptThree(x); } else { KeptShifted(x, size); }
  }

  /** What is packed does not change when the dropped bytes are cleared. */
  lemma KeptTrimmed(x: nat, size: nat)
    requires size > 3 && PackedSize(x, size) == size
    ensures var d := Trimmed(x, size - 3); PackedSize(d, size) == size && Kept(d, size) == Kept(x, size)
  {
    TrimmedIs(x, size - 3);
  }

  lemma KeptThree(x: nat)
    requires PackedSize(x, 3) == 4
    ensures var d := Trimmed(x, 1); PackedSize(d, 3) == 4 && Kept(d, 3) == Kept(x, 3)
  {
    TrimmedIs(x, 1);
    assert Bytes(0) == 1 && Bytes(1) == 256;
  }

  lemma KeptShifted(x: nat, size: nat)
    requires size > 3 && PackedSize(x, size) == size + 1
    ensures var d := Trimmed(x, size - 2); PackedSize(d, size) == size + 1 && Kept(d, size) == Kept(x, size)
  {
    TrimmedIs(x, size - 2);
    BytesAdd(size - 3, 1);
    LeadingTrimmed(x, size);
  }

  lemma LeadingTrimmed(x: nat, size: nat)
    requires size > 3 && Leading(x, size) >= 0x80_0000
    ensures Leading(Trimmed(x, size - 2), size) == Leading(x, size) / 256 * 256 >= 0x80_0000
  {
    var w := Bytes(size - 3);
    assert Bytes(size - 2) == 256 * w;
    DivDiv(x, w, 256);
    var q := x / w / 256;
    assert q * (256 * w) == (q * 256) * w;
    DivModIs(q * 256 * w, w, q * 256, 0);
  }

  // ---------------------------------------------------------------- encoding and decoding

  /** A scaled number reaches a power when the mantissa reaches what is left of the power. */
  lemma ScaledAtLeast(m: nat, e: nat, k: nat, w: nat, v: nat)
    requires w == Bytes(e) && v == m * w
    ensures v >= Bytes(e + k) <==> m >= Bytes(k)
  {
    BytesAdd(k, e);
    if m >= Bytes(k) {
      MulSub(w, m, Bytes(k));
      MulNonneg(w, m - Bytes(k));
    } else {
      BelowTimes(m, Bytes(k), w);
    }
  }

  /** The overflow test, with limit = 32 bytes. */
  lemma OverflowIs(m: nat, size: nat, limit: nat, w: nat, v: nat)
    requires m < 0x80_0000 && size > 3 && limit == 32 && w == Bytes(size - 3) && v == m * w
    ensures v >= Bytes(limit) <==> m != 0 && (size > 34 || (m > 0xff && size > 33) || (m > 0xffff && size > 32))
  {
    if size > 34 {
      OverflowFar(m, size, limit, w, v);
    } else if size >= 32 {
      OverflowNear(m, size, 35 - size, limit, w, v);
    } else {
      OverflowNever(m, size, limit, w, v);
    }
  }

  lemma OverflowFar(m: nat, size: nat, limit: nat, w: nat, v: nat)
    requires size - 3 >= limit && w == Bytes(size - 3) && v == m * w
    ensures v >= Bytes(limit) <==> m != 0
  {
    BytesGrow(limit, size - 3);
    if m > 0 { MulAtLeast(w, m); }
  }

  lemma OverflowNear(m: nat, size: nat, k: nat, limit: nat, w: nat, v: nat)
    requires m < 0x80_0000 && 3 <= size && k <= 3 && size - 3 + k == limit && w == Bytes(size - 3) && v == m * w
    ensures v >= Bytes(limit) <==>
      m >= if k == 0 then 1 else if k == 1 then 0x100 else if k == 2 then 0x1_0000 else 0x100_0000
  {
    ScaledAtLeast(m, size - 3, k, w, v);
    ThreeBytes(k);
  }

  lemma OverflowNever(m: nat, size: nat, limit: nat, w: nat, v: nat)
    requires m < 0x80_0000 && 3 <= size <= limit && w == Bytes(size - 3) && v == m * w
    ensures v < Bytes(limit)
  {
    ScaledAtLeast(m, size - 3, 3, w, v);
    ThreeBytes(3);
    BytesGrow(size, limit);
  }

  lemma ThreeBytes(n: nat)
    requires n <= 3
    ensures Bytes(n) == if n == 0 then 1 else if n == 1 then 0x100 else if n == 2 then 0x1_0000 else 0x100_0000
  {
  }

  lemma WeightIsBytes(n: nat)
    ensures Weight(n) == Bytes(4 * n)
  {
    WeightIsPow2(n);
    BytesIsPow2(4 * n);
  }

  /** The large exponents of SetCompact. */
  lemma SetLarge(m: nat, size: nat, width: nat, w: nat, v: nat)
    requires width == 8 && size > 3 && m < 0x80_0000 && w == Pow2(8 * (size - 3)) && v == m * w
    ensures w == Bytes(size - 3) && (v == 0 <==> m == 0)
    ensures v >= Weight(width) <==> m != 0 && (size > 34 || (m > 0xff && size > 33) || (m > 0xffff && size > 32))
  {
    var limit := 4 * width;
    BytesIsPow2(size - 3);
    WeightIsBytes(width);
    OverflowIs(m, size, limit, w, v);
    NotZero(m, w, v);
  }

  lemma NotZero(m: nat, w: nat, v: nat)
    requires w >= 1 && v == m * w
    ensures v == 0 <==> m == 0
  {
    if m > 0 { MulAtLeast(w, m); }
  }

  /** The small ones, which drop low bytes of the mantissa. */
  lemma SetSmall(c: nat, width: nat)
    requires width == 8 && Exponent(c) <= 3
    ensures Expand(c) == Mantissa(c) / Pow2(8 * (3 - Exponent(c))) < 0x80_0000 < Weight(width)
  {
    BytesIsPow2(3 - Exponent(c));
    DivBounds(Mantissa(c), Bytes(3 - Exponent(c)));
    WeightIsBytes(width);
    ThreeBytes(3);
    BytesGrow(3, 4 * width);
  }

  /** SetCompact: the value modulo 2^256, and exactly when it is negative or does not fit. */
  method SetCompact(x: BaseUint, c: nat) returns (negative: bool, overflow: bool)
    requires x.Valid() && x.width == 8 && c < UINT32
    modifies x
    ensures x.Valid() && x.Val() == Expand(c) % Weight(x.width)
    ensures overflow <==> Expand(c) >= Weight(x.width)
    ensures negative <==> SignBit(c) && Expand(c) != 0
  {
    var size := c / 0x100_0000;
    var word := c % 0x80_0000;
    if size <= 3 {
      SetSmall(c, x.width);
      word := word / Pow2(8 * (3 - size));
      DivModIs(word, Weight(x.width), 0, word);
      x.Assign(word);
    } else {
      SetLarge(word, size, x.width, Pow2(8 * (size - 3)), Times(word, Pow2(8 * (size - 3))));
      x.Assign(word);
      x.ShiftLeft(8 * (size - 3));
    }
    negative := word != 0 && c / 0x80_0000 % 2 == 1;
    overflow := word != 0 && (size > 34 || (word > 0xff && size > 33) || (word > 0xffff && size > 32));
  }

  lemma SizeFromBits(x: nat, n: nat)
    requires x < Pow2(n) && (n > 0 ==> Pow2(n - 1) <= x)
    ensures IsSize(x, (n + 7) / 8)
  {
    var size := (n + 7) / 8;
    BytesIsPow2(size);
    Pow2Grows(n, 8 * size);
    if size > 0 {
      BytesIsPow2(size - 1);
      Pow2Grows(8 * (size - 1), n - 1);
    }
  }

  lemma FirstByte(size: nat, width: nat, x: nat)
    requires IsSize(x, size) && x < Weight(width) && width == 8
    ensures size <= 32
  {
    WeightIsBytes(width);
    if size > 32 { BytesGrow(4 * width, size - 1); }
  }

  /** GetCompact, with the size that the number of bits gives. */
  method GetCompact(x: BaseUint, negative: bool) returns (c: nat, ghost size: nat)
    requires x.Valid() && x.width == 8
    ensures IsSize(x.Val(), size) && c == Pack(x.Val(), size, negative) && c < UINT32
  {
    var bits := x.CountBits();
    var nSize := (bits + 7) / 8;
    size := nSize;
    SizeFromBits(x.Val(), bits);
    x.ValBelow();
    FirstByte(size, x.width, x.Val());
    var compact := LeadingBytes(x, nSize);
    c := PackBytes(compact, nSize, negative);
  }

  /** The sign bit is kept clear, so the two assertions of GetCompact hold. */
  method PackBytes(leading: nat, size: nat, negative: bool) returns (c: nat)
    requires leading < 0x100_0000 && size <= 32
    ensures var shift := leading >= 0x80_0000;
      c == Fields(if shift then leading / 256 else leading, if shift then size + 1 else size, negative)
    ensures c < UINT32
  {
    var compact, nSize := leading, size;
    if compact / 0x80_0000 % 2 == 1 {
      compact := compact / 256;
      nSize := nSize + 1;
    }
    assert compact < 0x80_0000 && nSize < 256;
    c := compact + nSize * 0x100_0000;
    if negative && compact != 0 { c := c + 0x80_0000; }
  }

  method LeadingBytes(x: BaseUint, size: nat) returns (compact: nat)
    requires x.Valid() && IsSize(x.Val(), size)
    ensures compact == Leading(x.Val(), size) < 0x100_0000
  {
    LeadingFits(x.Val(), size);
    if size <= 3 {
      compact := x.GetLow64();
      compact := Low32(compact * Pow2(8 * (3 - size)));
    } else {
      var bn := new BaseUint.Copy(x);
      bn.ShiftRight(8 * (size - 3));
      compact := bn.GetLow64();
      compact := Low32(compact);
    }
  }

  /** Conversion to 32 bits, which keeps what fits. */
  method Low32(x: nat) returns (r: nat)
    ensures r < 0x1_0000_0000 && (x < 0x1_0000_0000 ==> r == x)
  {
    r := x % 0x1_0000_0000;
  }

  lemma LeadingFits(x: nat, size: nat)
    requires IsSize(x, size)
    ensures Leading(x, size) < 0x100_0000
    ensures size <= 3 ==> x % UINT64 == x && x * Pow2(8 * (3 - size)) == Leading(x, size)
    ensures size > 3 ==> x / Pow2(8 * (size - 3)) == Leading(x, size)
  {
    LeadingBelow(x, size);
    if size <= 3 {
      SmallSize(x, size);
      BytesIsPow2(3 - size);
    } else {
      BytesIsPow2(size - 3);
    }
  }

  lemma SmallSize(x: nat, size: nat)
    requires IsSize(x, size) && size <= 3
    ensures x < 0x100_0000
  {
    BytesGrow(size, 3);
    ThreeBytes(3);
  }

  /** Every target survives a round trip but for its low bytes, and compact forms come back unchanged. */
  lemma CompactRoundTrip(x: nat, size: nat, negative: bool)
    requires IsSize(x, size)
    ensures var c := Pack(x, size, negative); var s := PackedSize(x, size);
      && Expand(c) <= x < Expand(c) + (if s <= 3 then 1 else Bytes(s - 3))
      && (s > 3 ==> Expand(c) % Bytes(s - 3) == 0)
      && IsSize(Expand(c), size) && Pack(Expand(c), size, negative) == c
  {
    ExpandPack(x, size, negative);
    PackTwice(x, size, negative);
    var s := PackedSize(x, size);
    if s > 3 {
      TrimmedIs(x, s - 3);
      DivModIs(Trimmed(x, s - 3), Bytes(s - 3), Over(x, Bytes(s - 3)), 0);
    }
  }

  lemma SignOfZero(size: nat, negative: bool, negative': bool)
    ensures Pack(0, size, negative) == Pack(0, size, negative')
  {
    assert Kept(0, size) == 0;
  }

  lemma SignBack(x: nat, size: nat, negative: bool, c: nat, negative': bool)
    requires IsSize(x, size) && c == Pack(x, size, negative) && (negative' <==> SignBit(c) && Expand(c) != 0)
    ensures negative' <==> negative && Expand(c) != 0
  {
    PackFields(x, size, negative);
    if Mantissa(c) == 0 { assert Expand(c) == 0; }
  }

  /**
   * GetCompact, SetCompact, GetCompact: nothing overflows, only low bytes and the sign of zero are lost, and the form
   * stays.
   */
  method CompactAndBack(x: BaseUint, negative: bool) returns (c: nat, y: BaseUint, negative': bool, overflow: bool,
                        c': nat, ghost size: nat)
    requires x.Valid() && x.width == 8
    ensures fresh(y) && y.Valid() && !overflow && c' == c && (negative' <==> negative && y.Val() != 0)
    ensures IsSize(x.Val(), size)
    ensures var s := PackedSize(x.Val(), size); y.Val() == if s <= 3 then x.Val() else Trimmed(x.Val(), s - 3)
  {
    ghost var size';
    c, size := GetCompact(x, negative);
    x.ValBelow();
    y := new BaseUint(x.width, 0);
    Unpacked(x.Val(), size, negative, c, Weight(x.width));
    negative', overflow := SetCompact(y, c);
    c', size' := GetCompact(y, negative');
    PackedAgain(x.Val(), size, negative, c, y.Val(), negative', size', c');
  }

  /** What SetCompact makes of a compact form. */
  lemma Unpacked(x: nat, size: nat, negative: bool, c: nat, w: nat)
    requires IsSize(x, size) && c == Pack(x, size, negative) && x < w
    ensures Expand(c) % w == Expand(c) < w
    ensures var s := PackedSize(x, size); Expand(c) == if s <= 3 then x else Trimmed(x, s - 3)
  {
    PackTwice(x, size, negative);
    ExpandPack(x, size, negative);
    DivModIs(Expand(c), w, 0, Expand(c));
  }

  lemma PackedAgain(x: nat, size: nat, negative: bool, c: nat, y: nat, negative': bool, size': nat, c': nat)
    requires IsSize(x, size) && c == Pack(x, size, negative) && y == Expand(c) && (negative' <==> SignBit(c) && y != 0)
    requires IsSize(y, size') && c' == Pack(y, size', negative')
    ensures c' == c && (negative' <==> negative && y != 0)
  {
    PackTwice(x, size, negative);
    SignBack(x, size, negative, c, negative');
    SizeUnique(y, size, size');
    if y == 0 { SignOfZero(size, negative, negative'); }
  }

  // ---------------------------------------------------------------- block proof

  /** A compact form never stands for 2^256 - 1, so a target plus one does not wrap round. */
  lemma TargetBelowMax(c: nat, width: nat)
    requires width == 8 && Expand(c) < Weight(width)
    ensures Expand(c) + 1 < Weight(width)
  {
    WeightIsBytes(width);
    if Exponent(c) <= 3 {
      SetSmall(c, width);
    } else {
      var k := Exponent(c) - 3;
      assert Bytes(k) == 256 * Bytes(k - 1) && Bytes(4 * width) == 256 * Bytes(4 * width - 1);
      EvenTarget(Mantissa(c), Bytes(k - 1), Expand(c), Bytes(4 * width - 1));
    }
  }

  lemma EvenTarget(m: nat, w: nat, v: nat, u: nat)
    requires v == m * (256 * w)
    ensures v + 1 != 256 * u
  {
    assert m * (256 * w) == 256 * (m * w);
  }

  /** 2^256 / (t + 1), computed as ~t / (t + 1) + 1. */
  lemma ProofQuotient(t: nat, w: nat)
    requires 1 <= t && t + 1 < w
    ensures (w - 1 - t) / (t + 1) + 1 == w / (t + 1) < w
  {
    var d := t + 1;
    var q, r := (w - d) / d, (w - d) % d;
    assert w - d == d * q + r;
    assert d * q + d == d * (q + 1);
    DivModIs(w, d, q + 1, r);
    MulAtLeast(q + 1, d - 1);
    assert (q + 1) * d == (q + 1) * (d - 1) + (q + 1);
  }

  /** The steps of the computation, none of which wraps round. */
  lemma ProofValue(t: nat, w: nat, c: nat, d: nat)
    requires 1 <= t && t + 1 < w && c == w - 1 - t && d == t + 1
    ensures (t + 1) % w == d && (c / d + 1) % w == w / (t + 1)
  {
    ProofQuotient(t, w);
    DivModIs(t + 1, w, 0, t + 1);
    DivModIs(w / (t + 1), w, 0, w / (t + 1));
  }

  method TargetProof(target: BaseUint) returns (r: BaseUint)
    requires target.Valid() && target.Val() >= 1 && target.Val() + 1 < Weight(target.width)
    modifies target
    ensures fresh(r) && r.Valid() && r.width == target.width
    ensures r.Val() == Weight(target.width) / (old(target.Val()) + 1)
  {
    ghost var t, w := target.Val(), Weight(target.width);
    ProofValue(t, w, w - 1 - t, t + 1);
    var one := new BaseUint(target.width, 1);
    r := target.Complement();
    target.AddAssign(one);
    var ok, _ := r.DivAssign(target);
    assert ok.Ok?;
    r.AddAssign(one);
  }

  /** GetBlockProof: the expected number of hashes for a target; zero for one that is negative, too large or zero. */
  method GetBlockProof(c: nat) returns (r: BaseUint)
    requires c < UINT32
    ensures fresh(r) && r.Valid() && r.width == 8
    ensures r.Val() ==
      if Expand(c) == 0 || SignBit(c) || Expand(c) >= Weight(r.width) then 0 else Weight(r.width) / (Expand(c) + 1)
  {
    var target := new BaseUint(8, 0);
    var negative, overflow := SetCompact(target, c);
    var zero := target.EqualTo(0);
    if Expand(c) < Weight(target.width) {
      DivModIs(Expand(c), Weight(target.width), 0, Expand(c));
      TargetBelowMax(c, target.width);
    }
    if negative || overflow || zero {
      r := new BaseUint(8, 0);
    } else {
      r := TargetProof(target);
    }
  }
}
