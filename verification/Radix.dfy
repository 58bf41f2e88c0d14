// Numbers written in a base, most significant digit first, and how many digits they take.
module Radix {
  import opened Bits

  function Pow(b: nat, n: nat): (p: nat)
    ensures b >= 1 ==> p >= 1
  {
    if n == 0 then 1 else Times(b, Pow(b, n - 1))
  }

  predicate AreDigits(s: seq<nat>, b: nat) { forall i :: 0 <= i < |s| ==> s[i] < b }

  /** The number that digits stand for. */
  function Num(s: seq<nat>, b: nat): nat {
    if |s| == 0 then 0 else Times(Num(s[..|s| - 1], b), b) + s[|s| - 1]
  }

  /** The digits of a number, without leading zeros. */
  function Digits(n: nat, b: nat): (s: seq<nat>)
    requires b >= 2
  {
    if n == 0 then [] else
      Smaller(n, b);
      Digits(Over(n, b), b) + [n % b]
  }

  lemma Smaller(n: nat, b: nat)
    requires n > 0 && b >= 2
    ensures n / b < n && 0 <= n % b < b
  {
    DivBounds(n, b);
    MulAtLeast(n / b, b);
    if n / b > 0 { MulSub(n / b, b, 1); MulAtLeast(n / b, b - 1); }
  }

  lemma {:induction false} PowAdd(b: nat, m: nat, n: nat)
    ensures Pow(b, m + n) == Pow(b, m) * Pow(b, n)
  {
    if m > 0 {
      PowAdd(b, m - 1, n);
      Regroup(b, Pow(b, m - 1), Pow(b, n), Pow(b, m), Pow(b, m - 1 + n));
    }
  }

  lemma Regroup(b: int, x: int, y: int, z: int, w: int)
    requires z == b * x && w == x * y
    ensures b * w == z * y
  {
    assert b * (x * y) == (b * x) * y;
  }

  lemma {:induction false} PowGrows(b: nat, m: nat, n: nat)
    requires b >= 1 && m <= n
    ensures Pow(b, m) <= Pow(b, n)
  {
    if m < n {
      PowGrows(b, m, n - 1);
      MulAtLeast(Pow(b, n - 1), b);
    }
  }

  /** A digit put in front. */
  lemma {:induction false} NumCons(d: nat, s: seq<nat>, b: nat)
    ensures Num([d] + s, b) == d * Pow(b, |s|) + Num(s, b)
    decreases |s|
  {
    if |s| > 0 {
      var t := s[..|s| - 1];
      NumCons(d, t, b);
      assert ([d] + s)[..|s|] == [d] + t;
      ConsStep(d, Pow(b, |t|), Num(t, b), b, Num([d] + t, b), Pow(b, |s|));
    }
  }

  lemma ConsStep(d: int, w: int, v: int, b: int, u: int, x: int)
    requires u == d * w + v && x == b * w
    ensures u * b == d * x + v * b
  {
    assert (d * w + v) * b == d * (b * w) + v * b;
  }

  lemma {:induction false} NumBelow(s: seq<nat>, b: nat)
    requires AreDigits(s, b)
    ensures Num(s, b) < Pow(b, |s|)
  {
    if |s| > 0 {
      NumBelow(s[..|s| - 1], b);
      BelowStep(Num(s[..|s| - 1], b), s[|s| - 1], b, Pow(b, |s| - 1));
    }
  }

  lemma BelowStep(v: int, d: int, b: int, w: int)
    requires 0 <= v < w && 0 <= d < b
    ensures v * b + d < b * w
  {
    MulSub(b, w, v);
    MulAtLeast(b, w - v);
  }

  function Zeros(n: nat): (s: seq<nat>)
    ensures |s| == n && forall i :: 0 <= i < n ==> s[i] == 0
  {
    seq(n, _ => 0)
  }

  function LeadingZeros(s: seq<nat>): (n: nat)
    ensures n <= |s| && (forall i :: 0 <= i < n ==> s[i] == 0) && (n < |s| ==> s[n] != 0)
  {
    if |s| == 0 || s[0] != 0 then 0 else 1 + LeadingZeros(s[1..])
  }

  lemma {:induction false} LeadingZerosIs(s: seq<nat>, n: nat)
    requires n <= |s| && (forall i :: 0 <= i < n ==> s[i] == 0) && (n < |s| ==> s[n] != 0)
    ensures LeadingZeros(s) == n
  {
    if n > 0 { LeadingZerosIs(s[1..], n - 1); }
  }

  lemma {:induction false} NumSkipsZeros(s: seq<nat>, n: nat, b: nat)
    requires n <= |s| && forall i :: 0 <= i < n ==> s[i] == 0
    ensures Num(s, b) == Num(s[n..], b)
  {
    if n > 0 {
      assert s == [s[0]] + s[1..];
      NumCons(s[0], s[1..], b);
      NumSkipsZeros(s[1..], n - 1, b);
      assert s[1..][n - 1..] == s[n..];
    } else {
      assert s[0..] == s;
    }
  }

  lemma NumSnoc(t: seq<nat>, d: nat, b: nat)
    ensures Num(t + [d], b) == Num(t, b) * b + d
  {
    assert (t + [d])[..|t|] == t;
  }

  lemma DivModSum(n: nat, b: nat)
    requires b >= 1
    ensures n == n / b * b + n % b && 0 <= n % b < b
  {
  }

  lemma {:induction false} NumOfDigits(n: nat, b: nat)
    requires b >= 2
    ensures Num(Digits(n, b), b) == n && AreDigits(Digits(n, b), b)
    ensures (n > 0 ==> Digits(n, b) != [] && Digits(n, b)[0] != 0)
    decreases n
  {
    if n > 0 {
      var q, d := SplitBy(n, b);
      NumOfDigits(q, b);
      DigitsSnoc(q, d, b, n);
      NumOfSnoc(q, Digits(q, b), d, b, n);
    }
  }

  lemma SplitBy(n: nat, b: nat) returns (q: nat, d: nat)
    requires b >= 2 && n > 0
    ensures n == q * b + d && d < b && q < n
  {
    Smaller(n, b);
    DivModSum(n, b);
    q, d := Over(n, b), n % b;
  }

  lemma NumOfSnoc(q: nat, t: seq<nat>, d: nat, b: nat, n: nat)
    requires Num(t, b) == q && AreDigits(t, b) && d < b && n == q * b + d && (t == [] ==> q == 0) && n > 0
    requires q > 0 ==> t != [] && t[0] != 0
    ensures Num(t + [d], b) == n && AreDigits(t + [d], b) && (q > 0 || t == [] ==> (t + [d])[0] != 0)
  {
    NumSnoc(t, d, b);
  }

  lemma DigitsSnoc(q: nat, d: nat, b: nat, n: nat)
    requires b >= 2 && n == q * b + d && d < b && n > 0
    ensures Digits(n, b) == Digits(q, b) + [d]
  {
    DivModIs(n, b, q, d);
  }

  lemma {:induction false} DigitsOfNum(s: seq<nat>, b: nat)
    requires b >= 2 && AreDigits(s, b) && (|s| > 0 ==> s[0] != 0)
    ensures Digits(Num(s, b), b) == s
    decreases |s|
  {
    if |s| > 0 {
      var t, d := s[..|s| - 1], s[|s| - 1];
      DigitsOfNum(t, b);
      NumPositive(s, b);
      DigitsSnoc(Num(t, b), d, b, Num(s, b));
      assert s == t + [d];
    }
  }

  lemma NumPositive(s: seq<nat>, b: nat)
    requires b >= 2 && |s| > 0 && s[0] != 0
    ensures Num(s, b) > 0
  {
    assert s == [s[0]] + s[1..];
    NumCons(s[0], s[1..], b);
    MulAtLeast(Pow(b, |s| - 1), s[0]);
  }

  // ---------------------------------------------------------------- changing the base

  /** The same number in another base, with as many leading zeros. */
  function Convert(s: seq<nat>, a: nat, b: nat): (r: seq<nat>)
    requires b >= 2
  {
    Zeros(LeadingZeros(s)) + Digits(Num(s, a), b)
  }

  lemma ConvertIs(s: seq<nat>, a: nat, b: nat)
    requires b >= 2
    ensures LeadingZeros(Convert(s, a, b)) == LeadingZeros(s) && Num(Convert(s, a, b), b) == Num(s, a)
    ensures AreDigits(Convert(s, a, b), b)
  {
    var z, r := LeadingZeros(s), Convert(s, a, b);
    NumOfDigits(Num(s, a), b);
    LeadingZerosIs(r, z);
    NumSkipsZeros(r, z, b);
    assert r[z..] == Digits(Num(s, a), b);
  }

  /** Digits are determined by their number and how many zeros lead. */
  lemma DigitsUnique(s: seq<nat>, b: nat)
    requires b >= 2 && AreDigits(s, b)
    ensures s == Zeros(LeadingZeros(s)) + Digits(Num(s, b), b)
  {
    var z := LeadingZeros(s);
    NumSkipsZeros(s, z, b);
    DigitsOfNum(s[z..], b);
    Rejoin(s, z, s[z..]);
  }

  lemma Rejoin(s: seq<nat>, z: nat, t: seq<nat>)
    requires z <= |s| && t == s[z..] && forall i :: 0 <= i < z ==> s[i] == 0
    ensures s == Zeros(z) + t
  {
    assert s[..z] == Zeros(z);
  }

  /** Changing the base and back loses nothing. */
  lemma ConvertBack(s: seq<nat>, a: nat, b: nat)
    requires a >= 2 && b >= 2 && AreDigits(s, a)
    ensures Convert(Convert(s, a, b), b, a) == s
  {
    ConvertIs(s, a, b);
    DigitsUnique(s, a);
  }

  // ---------------------------------------------------------------- how many digits are enough

  lemma {:induction false} PowMul(b: nat, m: nat, n: nat)
    ensures Times(m, n) == m * n && Pow(b, Times(m, n)) == Pow(Pow(b, m), n)
    decreases n
  {
    if n > 0 {
      PowMul(b, m, n - 1);
      MulSub(m, n, 1);
      PowAdd(b, m, Times(m, n - 1));
    }
  }

  lemma MulGrows(a: nat, b: nat, c: nat, d: nat)
    requires a <= b && c <= d
    ensures a * c <= b * d
  {
    MulSub(c, b, a);
    MulNonneg(c, b - a);
    MulSub(b, d, c);
    MulNonneg(b, d - c);
  }

  lemma {:induction false} PowBaseGrows(a: nat, b: nat, n: nat)
    requires a <= b
    ensures Pow(a, n) <= Pow(b, n)
  {
    if n > 0 {
      PowBaseGrows(a, b, n - 1);
      MulGrows(a, b, Pow(a, n - 1), Pow(b, n - 1));
    }
  }

  lemma {:induction false} PowBaseGrowsStrictly(a: nat, b: nat, n: nat)
    requires a < b && n >= 1
    ensures Pow(a, n) < Pow(b, n)
  {
    if n > 1 {
      PowBaseGrowsStrictly(a, b, n - 1);
      MulGrowsStrictly(a, b, Pow(a, n - 1), Pow(b, n - 1));
    } else {
      assert Pow(a, n - 1) == 1 && Pow(b, n - 1) == 1;
    }
  }

  lemma MulGrowsStrictly(a: nat, b: nat, c: nat, d: nat)
    requires a < b && c < d
    ensures a * c < b * d
  {
    MulGrows(a, b - 1, c, d);
    MulSub(d, b, 1);
  }

  /**
   * If q digits in base a are never more than p digits in base b, then e digits are enough for n whenever e/n is at
   * least p/q.
   */
  lemma DigitsFit(a: nat, q: nat, b: nat, p: nat, n: nat, e: nat)
    requires b >= 1 && q >= 1 && Pow(a, q) <= Pow(b, p) && Times(p, n) <= Times(e, q)
    ensures Pow(a, n) <= Pow(b, e)
  {
    PowMul(a, q, n);
    PowMul(a, n, q);
    PowMul(b, p, n);
    PowMul(b, e, q);
    PowBaseGrows(Pow(a, q), Pow(b, p), n);
    PowGrows(b, Times(p, n), Times(e, q));
    assert Times(q, n) == Times(n, q);
    assert Pow(Pow(a, n), q) <= Pow(Pow(b, e), q);
    if Pow(a, n) > Pow(b, e) { PowBaseGrowsStrictly(Pow(b, e), Pow(a, n), q); }
  }

  lemma PowKnown(b: nat, m: nat, x: nat, n: nat, y: nat, z: nat)
    requires Pow(b, m) == x && Pow(b, n) == y && z == x * y
    ensures Pow(b, m + n) == z
  {
    PowAdd(b, m, n);
  }

  lemma PowOne(b: nat, n: nat)
    requires n == 1
    ensures Pow(b, n) == b
  {
    assert Pow(b, n - 1) == 1;
  }

  lemma Bytes8(b: nat)
    requires b == 256
    ensures Pow(b, 8) == 0x10000000000000000
  {
    PowOne(b, 1);
    PowKnown(b, 1, 0x100, 1, 0x100, 0x10000);
    PowKnown(b, 2, 0x10000, 2, 0x10000, 0x100000000);
    PowKnown(b, 4, 0x100000000, 4, 0x100000000, 0x10000000000000000);
  }

  lemma Digits11(b: nat)
    requires b == 58
    ensures Pow(b, 11) == 0x15AC264554F032800
  {
    PowOne(b, 1);
    PowKnown(b, 1, 0x3A, 1, 0x3A, 0xD24);
    PowKnown(b, 2, 0xD24, 2, 0xD24, 0xACAD10);
    PowKnown(b, 4, 0xACAD10, 4, 0xACAD10, 0x7479027EA100);
    PowKnown(b, 8, 0x7479027EA100, 2, 0xD24, 0x5FA8624C7FBA400);
    PowKnown(b, 10, 0x5FA8624C7FBA400, 1, 0x3A, 0x15AC264554F032800);
  }

  lemma Bytes52(b: nat)
    requires b == 256
    ensures Pow(b, 52) ==
      0x100000000000000000000000000000000000000000000000000000000000000000000000000000000000000000000000000000000
  {
    PowOne(b, 1);
    PowKnown(b, 1, 0x100, 1, 0x100, 0x10000);
    PowKnown(b, 2, 0x10000, 2, 0x10000, 0x100000000);
    PowKnown(b, 4, 0x100000000, 4, 0x100000000, 0x10000000000000000);
    PowKnown(b, 8, 0x10000000000000000, 8, 0x10000000000000000, 0x100000000000000000000000000000000);
    PowKnown(b, 16, 0x100000000000000000000000000000000, 16, 0x100000000000000000000000000000000,
             0x10000000000000000000000000000000000000000000000000000000000000000);
    PowKnown(b, 32, 0x10000000000000000000000000000000000000000000000000000000000000000, 16,
             0x100000000000000000000000000000000,
             0x1000000000000000000000000000000000000000000000000000000000000000000000000000000000000000000000000);
    PowKnown(b, 48, 0x1000000000000000000000000000000000000000000000000000000000000000000000000000000000000000000000000,
             4, 0x100000000,
        0x100000000000000000000000000000000000000000000000000000000000000000000000000000000000000000000000000000000);
  }

  lemma Digits71(b: nat)
    requires b == 58
    ensures Pow(b, 71) ==
      0xF1A10F76073F997E1AF0B37F5C795ECF145633452837A5DE3FA17AC74B86F60A0EBE5446F358940A4CA12A800000000000000000
  {
    PowOne(b, 1);
    PowKnown(b, 1, 0x3A, 1, 0x3A, 0xD24);
    PowKnown(b, 2, 0xD24, 2, 0xD24, 0xACAD10);
    PowKnown(b, 4, 0xACAD10, 4, 0xACAD10, 0x7479027EA100);
    PowKnown(b, 8, 0x7479027EA100, 8, 0x7479027EA100, 0x34FDE3761DA26B26E1410000);
    PowKnown(b, 16, 0x34FDE3761DA26B26E1410000, 16, 0x34FDE3761DA26B26E1410000,
             0xAF820335D9B3D9CF58B911D87035677FB7F528100000000);
    PowKnown(b, 32, 0xAF820335D9B3D9CF58B911D87035677FB7F528100000000, 32,
             0xAF820335D9B3D9CF58B911D87035677FB7F528100000000,
             0x7853026AE25F4CE0C69893E6F1F86F67AEF4DB69563516064ADEB967A9D66F4FE64B09EC94E5010000000000000000);
    PowKnown(b, 64, 0x7853026AE25F4CE0C69893E6F1F86F67AEF4DB69563516064ADEB967A9D66F4FE64B09EC94E5010000000000000000, 4,
             0xACAD10,
             0x51291D3DA279B033EE22C4E4A6E2DEDC799439D259D1820F6DEEA1C2DCC053504EAE09C5598944BBFD100000000000000000);
    PowKnown(b, 68,
             0x51291D3DA279B033EE22C4E4A6E2DEDC799439D259D1820F6DEEA1C2DCC053504EAE09C5598944BBFD100000000000000000, 2,
             0xD24,
             0x42A80443DEB070F6A6540E34CA0FD38892D9FC7D024451112C093C5A49CCF46CB49E6F8654C8FCB364966400000000000000000);
    PowKnown(b, 70,
             0x42A80443DEB070F6A6540E34CA0FD38892D9FC7D024451112C093C5A49CCF46CB49E6F8654C8FCB364966400000000000000000,
             1, 0x3A,
        0xF1A10F76073F997E1AF0B37F5C795ECF145633452837A5DE3FA17AC74B86F60A0EBE5446F358940A4CA12A800000000000000000);
  }
}
