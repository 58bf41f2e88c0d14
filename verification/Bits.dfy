// Bitwise operations of unsigned integers, as functions on natural numbers.
module Bits {

  function Pow2(n: nat): (p: nat)
    ensures p >= 1
  {
    if n == 0 then 1 else 2 * Pow2(n - 1)
  }

  function And(a: nat, b: nat): nat
    decreases a
  {
    if a == 0 then 0 else 2 * And(a / 2, b / 2) + (if a % 2 == 1 && b % 2 == 1 then 1 else 0)
  }

  function Or(a: nat, b: nat): nat
    decreases a + b
  {
    if a == 0 && b == 0 then 0 else 2 * Or(a / 2, b / 2) + (if a % 2 == 1 || b % 2 == 1 then 1 else 0)
  }

  lemma {:induction false} Pow2Grows(a: nat, b: nat)
    requires a <= b
    ensures Pow2(a) <= Pow2(b)
  {
    if a < b { Pow2Grows(a, b - 1); }
  }

  lemma {:induction false} Pow2Add(a: nat, b: nat)
    ensures Pow2(a + b) == Pow2(a) * Pow2(b)
  {
    if a > 0 {
      Pow2Add(a - 1, b);
      assert Pow2(a) * Pow2(b) == 2 * (Pow2(a - 1) * Pow2(b));
    }
  }

  lemma Pow2Values()
    ensures Pow2(8) == 0x100 && Pow2(16) == 0x1_0000 && Pow2(31) == 0x8000_0000 && Pow2(32) == 0x1_0000_0000
  {
    assert Pow2(4) == 16;
    Pow2Add(4, 4);
    Pow2Add(8, 8);
    Pow2Add(16, 16);
  }

  lemma Pow2Small(n: nat)
    requires n < 32
    ensures Pow2(n) <= 0x8000_0000
  {
    Pow2Values();
    Pow2Grows(n, 31);
  }

  lemma HalfMod(a: nat, p: nat)
    requires p >= 1
    ensures a % (2 * p) == 2 * (a / 2 % p) + a % 2
  {
    var q := a / 2 / p;
    assert a / 2 == q * p + a / 2 % p;
    assert a == (2 * p) * q + (2 * (a / 2 % p) + a % 2);
    DivModIs(a, 2 * p, q, 2 * (a / 2 % p) + a % 2);
  }

  lemma MulSub(d: int, x: int, y: int)
    ensures d * (x - y) == d * x - d * y
  {
  }

  lemma MulAtLeast(d: int, k: int)
    requires d >= 0 && k >= 1
    ensures d * k >= d
  {
    MulSub(d, k, 1);
    MulNonneg(d, k - 1);
  }

  lemma MulNonneg(a: int, b: int)
    requires a >= 0 && b >= 0
    ensures a * b >= 0
  {
  }

  /** Quotient and remainder are determined. */
  lemma DivModIs(a: int, d: int, q: int, r: int)
    requires 0 <= r < d && a == d * q + r
    ensures a / d == q && a % d == r
  {
    var q', r' := a / d, a % d;
    assert a == d * q' + r' && 0 <= r' < d;
    SameQuotient(d, q, r, q', r');
  }

  lemma SameQuotient(d: int, q: int, r: int, q': int, r': int)
    requires 0 <= r < d && 0 <= r' < d && d * q + r == d * q' + r'
    ensures q == q' && r == r'
  {
    if q' < q {
      MulSub(d, q, q');
      MulAtLeast(d, q - q');
    } else if q' > q {
      MulSub(d, q', q);
      MulAtLeast(d, q' - q);
    }
  }

  lemma AndOdd(a: nat, h: nat)
    requires a > 0
    ensures And(a, 2 * h + 1) == 2 * And(a / 2, h) + a % 2
  {
    assert (2 * h + 1) / 2 == h && (2 * h + 1) % 2 == 1;
  }

  lemma MaskStep(a: nat, p: nat, m: nat)
    requires a > 0 && p >= 1 && m == 2 * p && And(a / 2, p - 1) == a / 2 % p
    ensures And(a, m - 1) == a % m
  {
    AndOdd(a, p - 1);
    HalfMod(a, p);
  }

  /** Masking with 2^n - 1 is taking the remainder by 2^n. */
  lemma {:induction false} MaskIsMod(a: nat, n: nat)
    ensures And(a, Pow2(n) - 1) == a % Pow2(n)
  {
    if n == 0 {
      AndZero(a);
    } else if a > 0 {
      MaskIsMod(a / 2, n - 1);
      MaskStep(a, Pow2(n - 1), Pow2(n));
    } else {
      DivModIs(0, Pow2(n), 0, 0);
    }
  }

  lemma {:induction false} AndZero(a: nat)
    ensures And(a, 0) == 0
  {
    if a > 0 { AndZero(a / 2); }
  }

  lemma {:induction false} AndComm(a: nat, b: nat)
    ensures And(a, b) == And(b, a)
    decreases a
  {
    if a == 0 {
      AndZero(b);
    } else if b == 0 {
      AndZero(a);
    } else {
      AndComm(a / 2, b / 2);
    }
  }

  lemma {:induction false} OrIsSum(a: nat, b: nat)
    requires And(a, b) == 0
    ensures Or(a, b) == a + b
    decreases a + b
  {
    if a > 0 {
      OrIsSum(a / 2, b / 2);
    } else if b > 0 {
      OrIsSum(0, b / 2);
    }
  }

  lemma EvenPart(b: nat, p: nat)
    requires p >= 1 && b % (2 * p) == 0
    ensures b % 2 == 0 && b / 2 % p == 0
  {
    HalfMod(b, p);
  }

  /** A number below 2^s and a multiple of 2^s have no bits in common. */
  lemma {:induction false} Disjoint(a: nat, b: nat, s: nat)
    requires a < Pow2(s) && b % Pow2(s) == 0
    ensures And(a, b) == 0
    decreases s
  {
    if a > 0 {
      EvenPart(b, Pow2(s - 1));
      Disjoint(a / 2, b / 2, s - 1);
    }
  }

  lemma OrLow(a: nat, b: nat, s: nat)
    requires a < Pow2(s) && b % Pow2(s) == 0
    ensures Or(a, b) == a + b && Or(b, a) == a + b
  {
    Disjoint(a, b, s);
    AndComm(a, b);
    OrIsSum(a, b);
    OrIsSum(b, a);
  }

  lemma DivDiv(a: nat, c: nat, d: nat)
    requires c >= 1 && d >= 1
    ensures c * d >= 1 && a / (c * d) == a / c / d
  {
    MulAtLeast(c, d);
    var q := a / c / d;
    var r := a / c % d;
    assert a / c == d * q + r;
    assert a == c * (a / c) + a % c;
    DivDivScalar(a, c, d, a / c, q, r, a % c);
  }

  lemma DivDivScalar(a: nat, c: nat, d: nat, x: nat, q: nat, r: nat, t: nat)
    requires c >= 1 && d >= 1 && x == d * q + r && r < d && a == c * x + t && t < c
    ensures c * d >= 1 && a / (c * d) == q
  {
    MulAtLeast(c, d);
    assert c * x == (c * d) * q + c * r;
    MulNonneg(c, r);
    MulAtLeast(c, d - r);
    MulSub(c, d, r);
    DivModIs(a, c * d, q, c * r + t);
  }

  /** Masking with one bit tests it. */
  lemma {:induction false} AndPow2(a: nat, n: nat)
    ensures And(a, Pow2(n)) == if a / Pow2(n) % 2 == 1 then Pow2(n) else 0
  {
    if a == 0 {
      DivModIs(0, Pow2(n), 0, 0);
    } else if n == 0 {
      AndZero(a / 2);
    } else {
      AndPow2(a / 2, n - 1);
      DivDiv(a, 2, Pow2(n - 1));
      AndEven(a, Pow2(n - 1));
    }
  }

  lemma AndEven(a: nat, p: nat)
    requires a > 0
    ensures And(a, 2 * p) == 2 * And(a / 2, p)
  {
    assert 2 * p / 2 == p && 2 * p % 2 == 0;
  }

  lemma DivBounds(a: nat, d: nat)
    requires d >= 1
    ensures 0 <= a / d <= a && a / d * d <= a < a / d * d + d
  {
    var q := a / d;
    assert a == d * q + a % d;
    if q < 0 {
      MulAtLeast(d, -q);
      MulSub(d, 0, q);
    } else {
      MulAtLeast(q, d);
    }
  }

  function Times(a: nat, b: nat): nat {
    MulNonneg(a, b);
    a * b
  }

  function Over(a: nat, d: nat): nat
    requires d >= 1
  {
    DivBounds(a, d);
    a / d
  }
}
