// The rolling Bloom filter of src/bloom.cpp: three generations share one table of two-bit tags, spread over pairs
// of 64-bit words; a generation that comes round again is wiped a word at a time.
module RollingBloom {
  import Bits

  // ---------------------------------------------------------------- bits of a word

  predicate BitAt(x: bv64, b: bv6) { (x >> b) & 1 == 1 }

  lemma AndBit(x: bv64, y: bv64, b: bv6)
    ensures BitAt(x & y, b) == (BitAt(x, b) && BitAt(y, b))
  {
  }

  lemma OrBit(x: bv64, y: bv64, b: bv6)
    ensures BitAt(x | y, b) == (BitAt(x, b) || BitAt(y, b))
  {
  }

  lemma XorBit(x: bv64, y: bv64, b: bv6)
    ensures BitAt(x ^ y, b) == (BitAt(x, b) != BitAt(y, b))
  {
  }

  function AsWord(on: bool): bv64 { if on then 1 else 0 }

  // The operations on words, each with its effect on every bit.

  method AndWord(x: bv64, y: bv64) returns (z: bv64)
    ensures forall b: bv6 :: BitAt(z, b) == (BitAt(x, b) && BitAt(y, b))
  {
    z := x & y;
    forall b: bv6 ensures BitAt(x & y, b) == (BitAt(x, b) && BitAt(y, b)) { AndBit(x, y, b); }
  }

  method OrWord(x: bv64, y: bv64) returns (z: bv64)
    ensures forall b: bv6 :: BitAt(z, b) == (BitAt(x, b) || BitAt(y, b))
  {
    z := x | y;
    forall b: bv6 ensures BitAt(x | y, b) == (BitAt(x, b) || BitAt(y, b)) { OrBit(x, y, b); }
  }

  method XorWord(x: bv64, y: bv64) returns (z: bv64)
    ensures forall b: bv6 :: BitAt(z, b) == (BitAt(x, b) != BitAt(y, b))
  {
    z := x ^ y;
    forall b: bv6 ensures BitAt(x ^ y, b) == (BitAt(x, b) != BitAt(y, b)) { XorBit(x, y, b); }
  }

  method Negated(on: bool) returns (z: bv64)
    ensures forall b: bv6 :: BitAt(z, b) == on
  {
    z := 0 - AsWord(on);
  }

  method Shifted(on: bool, c: bv6) returns (z: bv64)
    ensures forall b: bv6 :: BitAt(z, b) == (on && b == c)
  {
    z := AsWord(on) << c;
  }

  method Hole(c: bv6) returns (z: bv64)
    ensures forall b: bv6 :: BitAt(z, b) == (b != c)
  {
    z := !(1 << c);
  }

  /** Write one bit of a word. */
  method WithBit(x: bv64, b: bv6, on: bool) returns (z: bv64)
    ensures forall c: bv6 :: BitAt(z, c) == if c == b then on else BitAt(x, c)
  {
    var hole := Hole(b);
    var bit := Shifted(on, b);
    z := AndWord(x, hole);
    z := OrWord(z, bit);
  }

  predicate WipedAt(p1: bv64, p2: bv64, g1: bool, g2: bool, z1: bv64, z2: bv64, b: bv6) {
    var wiped := BitAt(p1, b) == g1 && BitAt(p2, b) == g2;
    BitAt(z1, b) == (BitAt(p1, b) && !wiped) && BitAt(z2, b) == (BitAt(p2, b) && !wiped)
  }

  /** Clear, in both words at once, every bit position whose two bits spell the given generation. */
  method WipeWords(p1: bv64, p2: bv64, g1: bool, g2: bool) returns (z1: bv64, z2: bv64)
    ensures forall b: bv6 :: WipedAt(p1, p2, g1, g2, z1, z2, b)
  {
    var mask1 := Negated(g1);
    var mask2 := Negated(g2);
    mask1 := XorWord(p1, mask1);
    mask2 := XorWord(p2, mask2);
    var mask := OrWord(mask1, mask2);
    z1 := AndWord(p1, mask);
    z2 := AndWord(p2, mask);
  }

  // ---------------------------------------------------------------- cells and tags

  datatype Cell = Cell(pair: nat, bit: bv6)

  /** A 32-bit hash. */
  type Hash32 = x: nat | x < 0x1_0000_0000

  /** A multiply and shift in place of a remainder. */
  function FastMod(x: Hash32, n: nat): nat { x * n / 0x1_0000_0000 }

  lemma FastModBelow(x: Hash32, n: nat)
    requires n > 0
    ensures FastMod(x, n) < n
  {
    ScaledBelow(x, n);
  }

  lemma ScaledBelow(x: nat, n: nat)
    requires x < 0x1_0000_0000 && n > 0
    ensures x * n / 0x1_0000_0000 < n
  {
    Bits.MulSub(n, 0x1_0000_0000, x);
    Bits.MulAtLeast(n, 0x1_0000_0000 - x);
    var y := x * n;
    assert y < 0x1_0000_0000 * n;
  }

  lemma BitSucc(x: bv6)
    requires x as nat < 63
    ensures (x + 1) as nat == x as nat + 1
  {
  }

  lemma BitThere(x: bv6)
    ensures (x as nat) as bv6 == x && x as nat < 64
  {
  }

  lemma {:induction false} BitBack(n: nat)
    requires n < 64
    ensures (n as bv6) as nat == n
  {
    if n == 0 {
      var zero: bv6 := 0;
      assert zero as nat == 0;
      BitThere(zero);
    } else {
      BitBack(n - 1);
      var x := (n - 1) as bv6;
      BitSucc(x);
      BitThere(x + 1);
    }
  }

  /** The low six bits. */
  function BitOf(h: Hash32): (b: bv6)
    ensures b as nat == h % 64
  {
    assert Bits.Pow2(6) == 64;
    Bits.MaskIsMod(h, 6);
    BitBack(h % 64);
    Bits.And(h, 0x3F) as bv6
  }

  /** The low six bits of the hash choose a bit; the high ones choose a word, of which the lowest bit is ignored. */
  function CellOf(h: Hash32, pairs: nat): (c: Cell)
    requires pairs > 0
    ensures c.pair < pairs
  {
    FastModBelow(h, 2 * pairs);
    Cell(FastMod(h, 2 * pairs) / 2, BitOf(h))
  }

  /** Two hashes choose the same bit of the same pair of words, in a table of so many words. */
  predicate Meet(h1: Hash32, h2: Hash32, words: nat) {
    h1 % 64 == h2 % 64 && h1 * words / 0x1_0000_0000 / 2 == h2 * words / 0x1_0000_0000 / 2
  }

  lemma {:induction false} CellsMeet(h1: Hash32, h2: Hash32, pairs: nat)
    requires pairs > 0
    ensures CellOf(h1, pairs) == CellOf(h2, pairs) <==> Meet(h1, h2, 2 * pairs)
  {
    if h1 % 64 == h2 % 64 {
      BitThere(BitOf(h1));
      BitThere(BitOf(h2));
    }
  }

  /** Every bit of every word is chosen by some hash, as long as there are enough hashes. */
  lemma {:induction false} EveryCellIsChosen(c: Cell, pairs: nat) returns (h: Hash32)
    requires c.pair < pairs && 64 * pairs <= 0x1_0000_0000
    ensures CellOf(h, pairs) == c
  {
    var b := c.bit as nat;
    BitThere(c.bit);
    var base := (c.pair * 0x1_0000_0000 + pairs - 1) / pairs;
    var x := base + (b - base) % 64;
    LandsIn(c.pair, pairs, base, (b - base) % 64);
    h := x;
    assert h % 64 == b;
    Halves(h, pairs);
    BitThere(BitOf(h));
  }

  /** From the first hash that leads to a pair of words on, 64 in a row do. */
  lemma {:induction false} LandsIn(pair: nat, pairs: nat, base: nat, d: nat)
    requires pair < pairs && 64 * pairs <= 0x1_0000_0000 && d < 64
    requires base == (pair * 0x1_0000_0000 + pairs - 1) / pairs
    ensures (base + d) * pairs / 0x1_0000_0000 == pair && base + d < 0x1_0000_0000
  {
    var top := pair * 0x1_0000_0000 + pairs - 1;
    var y, z, x := pairs * base, pairs * d, pairs * (base + d);
    assert top == pairs * base + top % pairs;
    Bits.MulSub(pairs, 63, d);
    Bits.MulNonneg(pairs, 63 - d);
    Bits.MulNonneg(pairs, d);
    assert x == y + z;
    Bits.DivModIs(x, 0x1_0000_0000, pair, x - 0x1_0000_0000 * pair);
    Cancels(base + d, 0x1_0000_0000, pairs, x);
  }

  lemma {:induction false} Cancels(a: nat, b: nat, d: nat, x: nat)
    requires x == d * a && x < d * b
    ensures a < b
  {
    if a >= b {
      Bits.MulSub(d, a, b);
      Bits.MulNonneg(d, a - b);
    }
  }

  /** Counting words and halving is counting pairs. */
  lemma {:induction false} Halves(h: nat, pairs: nat)
    ensures h * (2 * pairs) / 0x1_0000_0000 / 2 == h * pairs / 0x1_0000_0000
  {
    var y := h * pairs;
    assert h * (2 * pairs) == 2 * y;
  }

  function TagBits(low: bool, high: bool): nat { (if low then 1 else 0) + (if high then 2 else 0) }

  function Tag(data: seq<bv64>, c: Cell): nat
    requires 2 * c.pair + 1 < |data|
  {
    TagBits(BitAt(data[2 * c.pair], c.bit), BitAt(data[2 * c.pair + 1], c.bit))
  }

  function WithPair(data: seq<bv64>, pair: nat, w1: bv64, w2: bv64): seq<bv64>
    requires 2 * pair + 1 < |data|
  {
    data[2 * pair := w1][2 * pair + 1 := w2]
  }

  lemma TagWithPair(data: seq<bv64>, pair: nat, w1: bv64, w2: bv64, c: Cell)
    requires 2 * pair + 1 < |data| && 2 * c.pair + 1 < |data|
    ensures Tag(WithPair(data, pair, w1, w2), c) ==
      if c.pair == pair then TagBits(BitAt(w1, c.bit), BitAt(w2, c.bit)) else Tag(data, c)
  {
    var after := WithPair(data, pair, w1, w2);
    if c.pair == pair {
      assert after[2 * c.pair] == w1 && after[2 * c.pair + 1] == w2;
    } else {
      assert after[2 * c.pair] == data[2 * c.pair] && after[2 * c.pair + 1] == data[2 * c.pair + 1];
    }
  }

  /** A generation number is spelt by its two bits. */
  lemma GenerationBits(g: nat, low: bool, high: bool)
    requires 1 <= g <= 3
    ensures TagBits(g % 2 == 1, g / 2 == 1) == g
    ensures TagBits(low, high) == g <==> low == (g % 2 == 1) && high == (g / 2 == 1)
  {
  }

  lemma TagWritten(data: seq<bv64>, c: Cell, g: nat, w1: bv64, w2: bv64, d: Cell)
    requires 2 * c.pair + 1 < |data| && 2 * d.pair + 1 < |data| && 1 <= g <= 3
    requires BitAt(w1, d.bit) == if d.bit == c.bit then g % 2 == 1 else BitAt(data[2 * c.pair], d.bit)
    requires BitAt(w2, d.bit) == if d.bit == c.bit then g / 2 == 1 else BitAt(data[2 * c.pair + 1], d.bit)
    ensures Tag(WithPair(data, c.pair, w1, w2), d) == if d == c then g else Tag(data, d)
  {
    TagWithPair(data, c.pair, w1, w2, d);
    GenerationBits(g, true, true);
  }

  lemma TagWiped(data: seq<bv64>, pair: nat, g: nat, w1: bv64, w2: bv64, c: Cell)
    requires 2 * pair + 1 < |data| && 2 * c.pair + 1 < |data| && 1 <= g <= 3
    requires WipedAt(data[2 * pair], data[2 * pair + 1], g % 2 == 1, g / 2 == 1, w1, w2, c.bit)
    ensures Tag(WithPair(data, pair, w1, w2), c) == if c.pair == pair && Tag(data, c) == g then 0 else Tag(data, c)
  {
    TagWithPair(data, pair, w1, w2, c);
    GenerationBits(g, BitAt(data[2 * c.pair], c.bit), BitAt(data[2 * c.pair + 1], c.bit));
  }

  // ---------------------------------------------------------------- what the tags stand for

  /** In generation g, the tag of a cell last written in a given generation. */
  function TagOf(last: int, g: nat): nat { if last >= 0 && last + 2 >= g then last % 3 + 1 else 0 }

  /** When a generation number comes round again, exactly the cells of three generations ago carry it. */
  lemma WipedTag(last: int, g: nat)
    requires last <= g
    ensures TagOf(last, g + 1) == if TagOf(last, g) == (g + 1) % 3 + 1 then 0 else TagOf(last, g)
  {
    if last >= 0 && last + 2 >= g {
      assert last == g || last == g - 1 || last == g - 2;
    }
  }

  datatype Setup<!Key> = Setup(
    hash: (nat, nat, Key) -> Hash32, hashFuncs: nat, pairs: nat, perGeneration: nat, tweak: nat)
  {
    predicate Ok() { pairs > 0 && perGeneration > 0 }

    function Slot(key: Key, n: nat): (c: Cell)
      requires Ok()
      ensures c.pair < pairs
    {
      CellOf(hash(n, tweak, key), pairs)
    }

    predicate HitsBelow(key: Key, c: Cell, m: nat)
      requires Ok()
    {
      exists n :: 0 <= n < m && Slot(key, n) == c
    }

    /** The generation in which a cell was last written, or -1. */
    function LastWrite(keys: seq<Key>, c: Cell): (g: int)
      requires Ok()
      ensures g >= -1
    {
      if |keys| == 0 then -1
      else if HitsBelow(keys[|keys| - 1], c, hashFuncs) then (|keys| - 1) / perGeneration
      else LastWrite(keys[..|keys| - 1], c)
    }

    /** The generation that the last key went into. */
    function Now(keys: seq<Key>): nat
      requires Ok()
    {
      if |keys| == 0 then 0 else (|keys| - 1) / perGeneration
    }

    /** In generation g a cell shows its last write if that was within the last three generations. */
    function Shows(keys: seq<Key>, c: Cell, g: nat): nat
      requires Ok()
    {
      TagOf(LastWrite(keys, c), g)
    }

    lemma HitsNext(key: Key, c: Cell, n: nat)
      requires Ok()
      ensures HitsBelow(key, c, n + 1) == (HitsBelow(key, c, n) || c == Slot(key, n))
    {
      if c == Slot(key, n) { assert 0 <= n < n + 1; }
    }

    lemma ShowsNext(keys: seq<Key>, key: Key, c: Cell, g: nat)
      requires Ok() && |keys| / perGeneration == g
      ensures Shows(keys + [key], c, g) == if HitsBelow(key, c, hashFuncs) then g % 3 + 1 else Shows(keys, c, g)
    {
      assert (keys + [key])[..|keys|] == keys;
    }

    /** This generation and the two before it hold the last two full generations and what this one holds so far. */
    lemma RecentWindow(keys: seq<Key>, i: nat, t: nat)
      requires Ok() && i < |keys| && |keys| == Now(keys) * perGeneration + t
      ensures i / perGeneration + 2 >= Now(keys) <==> i + 2 * perGeneration + t >= |keys|
    {
      var q, g := i / perGeneration, Now(keys);
      assert i == perGeneration * q + i % perGeneration;
      if q + 2 >= g {
        Bits.MulSub(perGeneration, q + 2, g);
        Bits.MulNonneg(perGeneration, q + 2 - g);
        assert perGeneration * (q + 2) == perGeneration * q + 2 * perGeneration;
      } else {
        Bits.MulSub(perGeneration, g, q + 2);
        Bits.MulAtLeast(perGeneration, g - (q + 2));
        assert perGeneration * (q + 2) == perGeneration * q + 2 * perGeneration;
      }
    }

    /** A cell shows a write if and only if a key of this generation or the two before it falls into it. */
    lemma {:induction false} ShowsIff(keys: seq<Key>, c: Cell)
      requires Ok()
      ensures Shows(keys, c, Now(keys)) != 0 <==> exists i: nat :: RecentHit(keys, c, i)
    {
      var last := LastWrite(keys, c);
      if last >= 0 {
        var i := LastWriter(keys, c);
        if last + 2 >= Now(keys) { assert RecentHit(keys, c, i); }
      }
      forall i: nat | RecentHit(keys, c, i) ensures Shows(keys, c, Now(keys)) != 0 {
        LastWriteAtLeast(keys, c, i);
      }
    }

    predicate RecentHit(keys: seq<Key>, c: Cell, i: nat)
      requires Ok()
    {
      i < |keys| && i / perGeneration + 2 >= Now(keys) && HitsBelow(keys[i], c, hashFuncs)
    }

    lemma {:induction false} LastWriter(keys: seq<Key>, c: Cell) returns (i: nat)
      requires Ok() && LastWrite(keys, c) >= 0
      ensures i < |keys| && HitsBelow(keys[i], c, hashFuncs) && i / perGeneration == LastWrite(keys, c)
    {
      i := |keys| - 1;
      if !HitsBelow(keys[i], c, hashFuncs) {
        var fewer := keys[..i];
        i := LastWriter(fewer, c);
      }
    }

    /** One of the hashes of a key inserted within the window chooses the same bit as the n-th hash of this one. */
    ghost predicate Covered(keys: seq<Key>, window: nat, key: Key, n: nat) {
      exists i: nat :: MetBy(keys, window, key, n, i)
    }

    ghost predicate MetBy(keys: seq<Key>, window: nat, key: Key, n: nat, i: nat) {
      i < |keys| && i + window >= |keys| &&
      exists m: nat :: m < hashFuncs && Meet(hash(n, tweak, key), hash(m, tweak, keys[i]), 2 * pairs)
    }

    /** The window covers every hash of the key. */
    ghost predicate AllCovered(keys: seq<Key>, window: nat, key: Key) {
      forall n: nat :: n < hashFuncs ==> Covered(keys, window, key, n)
    }

    lemma {:induction false} MetIsHit(keys: seq<Key>, t: nat, window: nat, key: Key, n: nat, i: nat)
      requires Ok() && |keys| == Now(keys) * perGeneration + t && window == 2 * perGeneration + t
      ensures MetBy(keys, window, key, n, i) <==> RecentHit(keys, Slot(key, n), i)
    {
      if i < |keys| {
        RecentWindow(keys, i, t);
        forall m: nat
          ensures Meet(hash(n, tweak, key), hash(m, tweak, keys[i]), 2 * pairs) <==> Slot(keys[i], m) == Slot(key, n)
        {
          CellsMeet(hash(n, tweak, key), hash(m, tweak, keys[i]), pairs);
        }
      }
    }

    lemma {:induction false} ShowsIffCovered(keys: seq<Key>, t: nat, window: nat, key: Key, n: nat)
      requires Ok() && |keys| == Now(keys) * perGeneration + t && window == 2 * perGeneration + t
      ensures Shows(keys, Slot(key, n), Now(keys)) != 0 <==> Covered(keys, window, key, n)
    {
      var c := Slot(key, n);
      ShowsIff(keys, c);
      forall i: nat ensures MetBy(keys, window, key, n, i) <==> RecentHit(keys, c, i) {
        MetIsHit(keys, t, window, key, n, i);
      }
    }

    /** So all cells of a key show if and only if the window covers all its hashes. */
    lemma {:induction false} ShownIffCovered(keys: seq<Key>, t: nat, window: nat, key: Key)
      requires Ok() && |keys| == Now(keys) * perGeneration + t && window == 2 * perGeneration + t
      ensures AllShow(keys, key, hashFuncs) <==> AllCovered(keys, window, key)
    {
      forall n: nat | n < hashFuncs
        ensures Shows(keys, Slot(key, n), Now(keys)) != 0 <==> Covered(keys, window, key, n)
      {
        ShowsIffCovered(keys, t, window, key, n);
      }
    }

    /** The first m cells of the key were written in this generation or the two before it. */
    predicate AllShow(keys: seq<Key>, key: Key, m: nat)
      requires Ok()
    {
      forall n :: 0 <= n < m ==> Shows(keys, Slot(key, n), Now(keys)) != 0
    }

    /** A key of this generation or the two before it shows in all its cells, whatever was written over it since. */
    lemma RecentShows(keys: seq<Key>, key: Key, i: nat)
      requires Ok() && i < |keys| && keys[i] == key && i / perGeneration + 2 >= Now(keys)
      ensures AllShow(keys, key, hashFuncs)
    {
      forall n | 0 <= n < hashFuncs ensures Shows(keys, Slot(key, n), Now(keys)) != 0 {
        assert RecentHit(keys, Slot(key, n), i);
        ShowsIff(keys, Slot(key, n));
      }
    }

    /** The keys that fall into a cell include those of every generation up to the last write. */
    lemma {:induction false} LastWriteAtLeast(keys: seq<Key>, c: Cell, i: nat)
      requires Ok() && i < |keys| && HitsBelow(keys[i], c, hashFuncs)
      ensures LastWrite(keys, c) >= i / perGeneration
    {
      if HitsBelow(keys[|keys| - 1], c, hashFuncs) {
        QuotientGrows(i, |keys| - 1, perGeneration);
      } else {
        LastWriteAtLeast(keys[..|keys| - 1], c, i);
      }
    }

    lemma {:induction false} LastWriteAtMost(keys: seq<Key>, c: Cell)
      requires Ok()
      ensures LastWrite(keys, c) <= Now(keys)
    {
      if |keys| > 0 && !HitsBelow(keys[|keys| - 1], c, hashFuncs) {
        LastWriteAtMost(keys[..|keys| - 1], c);
        if |keys| > 1 { QuotientGrows(|keys| - 2, |keys| - 1, perGeneration); }
      }
    }
  }

  /** Counting entries by generation is dividing by the size of a generation. */
  lemma Rolled(n: nat, size: nat, g: nat, t: nat)
    requires size > 0 && n == g * size + t && t <= size
    ensures t < size ==> n / size == g
    ensures t == size ==> n / size == g + 1 && n == (g + 1) * size
  {
    if t == size {
      assert (g + 1) * size == g * size + size;
      Bits.DivModIs(n, size, g + 1, 0);
    } else {
      Bits.DivModIs(n, size, g, t);
    }
  }

  lemma QuotientGrows(a: nat, b: nat, d: nat)
    requires a <= b && d > 0
    ensures a / d <= b / d
  {
    var q, q' := a / d, b / d;
    assert a == d * q + a % d && b == d * q' + b % d;
    if q' < q {
      Bits.MulSub(d, q, q');
      Bits.MulAtLeast(d, q - q');
    }
  }

  // ---------------------------------------------------------------- the filter

  class RollingBloomFilter<Key> {
    const hash: (nat, nat, Key) -> Hash32
    const hashFuncs: nat
    const pairs: nat
    const entriesPerGeneration: nat
    var entriesThisGeneration: nat
    var generation: nat
    var data: seq<bv64>
    var tweak: nat
    /** The keys inserted since the last reset. */
    ghost var keys: seq<Key>

    ghost function Model(): Setup<Key>
      reads this
    {
      Setup(hash, hashFuncs, pairs, entriesPerGeneration, tweak)
    }

    ghost predicate Shaped()
      reads this
    {
      Model().Ok() && |data| == 2 * pairs
    }

    /** Every cell carries the tag of its last write in generation g. */
    ghost predicate Tagged(g: nat)
      reads this
      requires Shaped()
    {
      forall c: Cell :: c.pair < pairs ==> Tag(data, c) == Model().Shows(keys, c, g)
    }

    ghost predicate Valid()
      reads this
    {
      && Shaped() && Tagged(Model().Now(keys))
      && generation == Model().Now(keys) % 3 + 1
      && |keys| == Model().Now(keys) * entriesPerGeneration + entriesThisGeneration
      && entriesThisGeneration <= entriesPerGeneration
    }

    /** The number of hash functions and the size of the table come from the false-positive rate. */
    constructor (elements: nat, hashFuncs: nat, pairs: nat, hash: (nat, nat, Key) -> Hash32, tweak: nat)
      requires 1 <= elements < 0xFFFF_FFFF && pairs > 0
      ensures Valid() && keys == [] && elements <= 2 * entriesPerGeneration <= elements + 1
      ensures this.hash == hash && this.hashFuncs == hashFuncs && this.pairs == pairs
    {
      this.hash, this.hashFuncs, this.pairs := hash, hashFuncs, pairs;
      entriesPerGeneration := (elements + 1) / 2;
      data := seq(2 * pairs, _ => 0);
      new;
      Reset(tweak);
    }

    method Reset(newTweak: nat)
      requires Shaped()
      modifies this
      ensures Valid() && keys == [] && tweak == newTweak
    {
      tweak, entriesThisGeneration, generation := newTweak, 0, 1;
      keys := [];
      data := seq(2 * pairs, _ => 0);
    }

    method WipePair(pair: nat)
      requires Shaped() && pair < pairs && 1 <= generation <= 3
      modifies this`data
      ensures Shaped()
      ensures forall c: Cell :: c.pair < pairs ==>
        Tag(data, c) == if c.pair == pair && Tag(old(data), c) == generation then 0 else Tag(old(data), c)
    {
      var w1, w2 := WipeWords(data[2 * pair], data[2 * pair + 1], generation % 2 == 1, generation / 2 == 1);
      forall c: Cell | c.pair < pairs
        ensures Tag(WithPair(data, pair, w1, w2), c) ==
          if c.pair == pair && Tag(data, c) == generation then 0 else Tag(data, c)
      {
        TagWiped(data, pair, generation, w1, w2, c);
      }
      data := WithPair(data, pair, w1, w2);
    }

    /** Before a generation number is used again, every cell that still carries it becomes empty. */
    method Wipe(ghost g: nat)
      requires Shaped() && Tagged(g) && generation == (g + 1) % 3 + 1
      requires forall c: Cell :: Model().LastWrite(keys, c) <= g
      modifies this`data
      ensures Shaped() && Tagged(g + 1)
    {
      var p := 0;
      while p < |data|
        invariant Shaped() && p % 2 == 0 && p <= |data|
        invariant forall c: Cell :: c.pair < pairs ==>
          Tag(data, c) == if c.pair < p / 2 && Tag(old(data), c) == generation then 0 else Tag(old(data), c)
      {
        WipePair(p / 2);
        p := p + 2;
      }
      forall c: Cell | c.pair < pairs
        ensures Tag(data, c) == Model().Shows(keys, c, g + 1)
      {
        WipedTag(Model().LastWrite(keys, c), g);
      }
    }

    /** Write the generation number into one cell. */
    method WriteCell(c: Cell)
      requires Shaped() && c.pair < pairs && 1 <= generation <= 3
      modifies this`data
      ensures Shaped()
      ensures forall d: Cell :: d.pair < pairs ==> Tag(data, d) == if d == c then generation else Tag(old(data), d)
    {
      var w1 := WithBit(data[2 * c.pair], c.bit, generation % 2 == 1);
      var w2 := WithBit(data[2 * c.pair + 1], c.bit, generation / 2 == 1);
      forall d: Cell | d.pair < pairs
        ensures Tag(WithPair(data, c.pair, w1, w2), d) == if d == c then generation else Tag(data, d)
      {
        TagWritten(data, c, generation, w1, w2, d);
      }
      data := WithPair(data, c.pair, w1, w2);
    }

    method Mark(key: Key)
      requires Shaped() && 1 <= generation <= 3
      modifies this`data
      ensures Shaped()
      ensures forall c: Cell :: c.pair < pairs ==>
        Tag(data, c) == if Model().HitsBelow(key, c, hashFuncs) then generation else Tag(old(data), c)
    {
      for n := 0 to hashFuncs
        invariant Shaped()
        invariant forall c: Cell :: c.pair < pairs ==>
          Tag(data, c) == if Model().HitsBelow(key, c, n) then generation else Tag(old(data), c)
      {
        var h := hash(n, tweak, key);
        ghost var before := data;
        WriteCell(CellOf(h, pairs));
        forall c: Cell | c.pair < pairs
          ensures Model().HitsBelow(key, c, n + 1) == (Model().HitsBelow(key, c, n) || c == Model().Slot(key, n))
        {
          Model().HitsNext(key, c, n);
        }
      }
    }

    /** Start the next generation if this one is full. */
    method Roll() returns (ghost g: nat)
      requires Valid()
      modifies this`entriesThisGeneration, this`generation, this`data
      ensures Shaped() && Tagged(g) && generation == g % 3 + 1 && entriesThisGeneration < entriesPerGeneration
      ensures g == |keys| / entriesPerGeneration && entriesThisGeneration == |keys| - g * entriesPerGeneration
    {
      g := Model().Now(keys);
      Rolled(|keys|, entriesPerGeneration, g, entriesThisGeneration);
      if entriesThisGeneration == entriesPerGeneration {
        entriesThisGeneration := 0;
        generation := generation + 1;
        if generation == 4 { generation := 1; }
        forall c: Cell ensures Model().LastWrite(keys, c) <= g { Model().LastWriteAtMost(keys, c); }
        Wipe(g);
        g := g + 1;
      }
    }

    /** insert: roll over to the next generation when this one is full, then tag the key's cells. */
    method Insert(key: Key)
      requires Valid()
      modifies this`entriesThisGeneration, this`generation, this`data, this`keys
      ensures Valid() && keys == old(keys) + [key]
    {
      ghost var g := Roll();
      entriesThisGeneration := entriesThisGeneration + 1;
      Mark(key);
      forall c: Cell
        ensures Model().Shows(keys + [key], c, g) ==
          if Model().HitsBelow(key, c, hashFuncs) then g % 3 + 1 else Model().Shows(keys, c, g)
      {
        Model().ShowsNext(keys, key, c, g);
      }
      keys := keys + [key];
      assert Model().Now(keys) == g;
    }

    /** contains answers true exactly when every cell of the key was written within the last three generations. */
    method Contains(key: Key) returns (r: bool)
      requires Valid()
      ensures r <==> Model().AllShow(keys, key, hashFuncs)
      ensures r <==> Model().AllCovered(keys, 2 * entriesPerGeneration + entriesThisGeneration, key)
      ensures forall i ::
        0 <= i < |keys| && keys[i] == key && i + 2 * entriesPerGeneration + entriesThisGeneration >= |keys| ==> r
    {
      forall i | 0 <= i < |keys| && keys[i] == key && i + 2 * entriesPerGeneration + entriesThisGeneration >= |keys|
        ensures Model().AllShow(keys, key, hashFuncs)
      {
        Model().RecentWindow(keys, i, entriesThisGeneration);
        Model().RecentShows(keys, key, i);
      }
      Model().ShownIffCovered(keys, entriesThisGeneration, 2 * entriesPerGeneration + entriesThisGeneration, key);
      for n := 0 to hashFuncs
        invariant Model().AllShow(keys, key, n)
      {
        var c := CellOf(hash(n, tweak, key), pairs);
        assert c == Model().Slot(key, n);
        var either := OrWord(data[2 * c.pair], data[2 * c.pair + 1]);
        if !((either >> c.bit) & 1 == 1) {
          assert Model().Shows(keys, Model().Slot(key, n), Model().Now(keys)) == 0;
          return false;
        }
      }
      r := true;
    }
  }
}
