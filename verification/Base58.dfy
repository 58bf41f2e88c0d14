// Base58 encoding and decoding, src/base58.cpp: long multiplication in a fixed digit buffer, one input digit at a time.
module Base58 {
  import opened Bits
  import opened Radix
  import opened Wrappers

  // ---------------------------------------------------------------- the digit buffer

  /** The number held by the last i digits of a buffer. */
  function Low(buf: seq<nat>, i: nat, b: nat): nat
    requires i <= |buf|
  {
    Num(buf[|buf| - i..], b)
  }

  lemma LowNext(buf: seq<nat>, i: nat, b: nat)
    requires i < |buf|
    ensures Low(buf, i + 1, b) == buf[|buf| - 1 - i] * Pow(b, i) + Low(buf, i, b)
  {
    var pos := |buf| - 1 - i;
    assert buf[pos..] == [buf[pos]] + buf[pos + 1..];
    NumCons(buf[pos], buf[pos + 1..], b);
  }

  lemma LowSame(s: seq<nat>, t: seq<nat>, i: nat, b: nat)
    requires i <= |s| == |t| && forall j :: |s| - i <= j < |s| ==> s[j] == t[j]
    ensures Low(s, i, b) == Low(t, i, b)
  {
    assert s[|s| - i..] == t[|t| - i..];
  }

  /** Digits above the length in use are zero, and add nothing. */
  lemma LowIsAll(buf: seq<nat>, i: nat, b: nat)
    requires i <= |buf| && forall j :: 0 <= j < |buf| - i ==> buf[j] == 0
    ensures Num(buf, b) == Low(buf, i, b)
  {
    NumSkipsZeros(buf, |buf| - i, b);
  }

  lemma DigitStep(u: int, carry: int, x: int, f: int, v: int, d: int, w: int, b: int, n: int, y: int, q: int, w': int,
                  u': int, v': int)
    requires u + carry * w == v * f + d && n == carry + f * x && n == q * b + y && w' == b * w && u' == y * w + u
    requires v' == x * w + v
    ensures u' + q * w' == v' * f + d
  {
    assert (q * b + y) * w == q * (b * w) + y * w;
    assert (carry + f * x) * w == carry * w + (x * w) * f;
    assert (x * w + v) * f == (x * w) * f + v * f;
  }

  /** One turn of the inner loop: the digit at position i takes the low part, and the rest is carried. */
  lemma TurnKeeps(buf: seq<nat>, r: seq<nat>, after: seq<nat>, i: nat, b: nat, f: nat, d: nat, carry: nat, n: nat)
    requires b >= 2 && i < |buf| == |r| == |after| && r[|r| - 1 - i] == buf[|buf| - 1 - i]
    requires n == carry + f * r[|r| - 1 - i]
    requires after == r[|r| - 1 - i := n % b] && Low(r, i, b) + carry * Pow(b, i) == Low(buf, i, b) * f + d
    ensures Low(after, i + 1, b) + n / b * Pow(b, i + 1) == Low(buf, i + 1, b) * f + d
  {
    LowNext(buf, i, b);
    LowNext(after, i, b);
    LowSame(r, after, i, b);
    DivModSum(n, b);
    DigitStep(Low(r, i, b), carry, buf[|buf| - 1 - i], f, Low(buf, i, b), d, Pow(b, i), b, n, n % b, n / b,
              Pow(b, i + 1),
              Low(after, i + 1, b), Low(buf, i + 1, b));
  }

  /** A buffer in use: digits of the base, zeros above the length. */
  predicate InUse(buf: seq<nat>, length: nat, b: nat) {
    length <= |buf| && AreDigits(buf, b) && forall j :: 0 <= j < |buf| - length ==> buf[j] == 0
  }

  method EmptyBuffer(size: nat, b: nat) returns (buf: seq<nat>)
    requires b >= 2
    ensures |buf| == size && InUse(buf, 0, b) && Num(buf, b) == 0
  {
    buf := Zeros(size);
    NumSkipsZeros(buf, size, b);
  }

  /** Multiply the number in the buffer by a factor and add a digit; when the result fits, nothing is carried out. */
  method MultiplyAdd(buf: seq<nat>, length: nat, b: nat, f: nat, d: nat) returns (r: seq<nat>, newLength: nat)
    requires b >= 2 && InUse(buf, length, b) && Num(buf, b) * f + d < Pow(b, |buf|)
    ensures |r| == |buf| && InUse(r, newLength, b) && Num(r, b) == Num(buf, b) * f + d
  {
    var carry: nat := d;
    var i := 0;
    r := buf;
    while (carry != 0 || i < length) && i < |buf|
      invariant i <= |buf| == |r| && AreDigits(r, b) && forall j :: 0 <= j < |buf| - i ==> r[j] == buf[j]
      invariant Low(r, i, b) + carry * Pow(b, i) == Low(buf, i, b) * f + d
      decreases |buf| - i
    {
      ghost var before := r;
      var pos := |r| - 1 - i;
      var n := carry + Times(f, r[pos]);
      DivModSum(n, b);
      r := r[pos := n % b];
      TurnKeeps(buf, before, r, i, b, f, d, carry, n);
      carry := Over(n, b);
      i := i + 1;
    }
    NoCarry(buf, r, i, length, b, f, d, carry);
    assert carry == 0;
    newLength := i;
  }

  lemma NoCarry(buf: seq<nat>, r: seq<nat>, i: nat, length: nat, b: nat, f: nat, d: nat, carry: nat)
    requires b >= 2 && InUse(buf, length, b) && Num(buf, b) * f + d < Pow(b, |buf|)
    requires i <= |buf| == |r| && (forall j :: 0 <= j < |buf| - i ==> r[j] == buf[j])
    requires Low(r, i, b) + carry * Pow(b, i) == Low(buf, i, b) * f + d && (i == |buf| || (carry == 0 && i >= length))
    ensures carry == 0 && (forall j :: 0 <= j < |r| - i ==> r[j] == 0) && Num(r, b) == Num(buf, b) * f + d
  {
    LowIsAll(buf, i, b);
    LowIsAll(r, i, b);
    CarryIsZero(Num(r, b), carry, Pow(b, i), Times(Num(buf, b), f) + d, i == |buf|);
  }

  lemma CarryIsZero(u: nat, carry: nat, w: nat, total: nat, full: bool)
    requires w >= 1 && u + carry * w == total && (if full then total < w else carry == 0)
    ensures carry == 0 && u == total
  {
    if carry > 0 { MulAtLeast(w, carry); }
  }

  // ---------------------------------------------------------------- the sizes are enough

  /** 138/100 digits to a byte, and one more. */
  lemma EncodeFits(n: nat, a: nat, b: nat)
    requires a == 256 && b == 58
    ensures Pow(a, n) <= Pow(b, n * 138 / 100 + 1)
  {
    Bytes8(a);
    Digits11(b);
    DigitsFit(a, 8, b, 11, n, n * 138 / 100 + 1);
  }

  /** 733/1000 bytes to a digit, and one more. */
  lemma DecodeFits(n: nat, a: nat, b: nat)
    requires a == 58 && b == 256
    ensures Pow(a, n) <= Pow(b, n * 733 / 1000 + 1)
  {
    Digits71(a);
    Bytes52(b);
    DigitsFit(a, 71, b, 52, n, n * 733 / 1000 + 1);
  }

  /** The digits from the first that is not zero. */
  method SkipZeros(buf: seq<nat>, length: nat, b: nat) returns (it: nat)
    requires b >= 2 && InUse(buf, length, b)
    ensures it <= |buf| && buf[it..] == Digits(Num(buf, b), b)
  {
    it := |buf| - length;
    while it < |buf| && buf[it] == 0
      invariant it <= |buf| && forall j :: 0 <= j < it ==> buf[j] == 0
    {
      it := it + 1;
    }
    NumSkipsZeros(buf, it, b);
    DigitsOfNum(buf[it..], b);
  }

  method CountLeading(s: seq<nat>) returns (z: nat)
    ensures z == LeadingZeros(s)
  {
    z := 0;
    while z < |s| && s[z] == 0
      invariant z <= |s| && forall j :: 0 <= j < z ==> s[j] == 0
    {
      z := z + 1;
    }
    LeadingZerosIs(s, z);
  }

  // ---------------------------------------------------------------- text

  /** The alphabet: the digits but 0, the capital letters but I and O, the small letters but l, in ascending order. */
  function Letter(d: nat): (c: char)
    requires d < 58
  {
    (if d < 9 then '1' as int + d
     else if d < 17 then 'A' as int + (d - 9)
     else if d < 22 then 'J' as int + (d - 17)
     else if d < 33 then 'P' as int + (d - 22)
     else if d < 44 then 'a' as int + (d - 33)
     else 'm' as int + (d - 44)) as char
  }

  /** strchr on the alphabet. */
  function Find(c: char, k: nat): (r: Option<nat>)
    requires k <= 58
    ensures r.Some? ==> k <= r.value < 58 && Letter(r.value) == c
    ensures r.None? ==> forall i :: k <= i < 58 ==> Letter(i) != c
    decreases 58 - k
  {
    if k == 58 then None else if Letter(k) == c then Some(k) else Find(c, k + 1)
  }

  lemma FindIs(d: nat)
    requires d < 58
    ensures Find(Letter(d), 0) == Some(d)
  {
    var r := Find(Letter(d), 0).value;
    assert Letter(r) == Letter(d);
  }

  predicate IsSpace(c: char) { c == ' ' || 9 <= c as int <= 13 }

  predicate IsDigit(c: char) { Find(c, 0).Some? }

  /** Digits and letters but 0, capital O and I, and small l. */
  predicate Unambiguous(c: char) {
    ('1' <= c <= '9' || 'A' <= c <= 'Z' || 'a' <= c <= 'z') && c != 'O' && c != 'I' && c != 'l'
  }

  /** The alphabet is exactly these characters, in the order of their codes. */
  lemma {:induction false} AlphabetIs(c: char, i: nat, j: nat)
    requires i < j < 58
    ensures IsDigit(c) <==> Unambiguous(c)
    ensures Letter(i) < Letter(j)
  {
    if Unambiguous(c) {
      var x := c as int;
      var d := if c <= '9' then x - '1' as int
               else if c <= 'H' then x - 'A' as int + 9
               else if c <= 'N' then x - 'J' as int + 17
               else if c <= 'Z' then x - 'P' as int + 22
               else if c <= 'k' then x - 'a' as int + 33
               else x - 'm' as int + 44;
      assert 0 <= d < 58 && Letter(d) == c;
    }
  }

  /** The white space of the C locale. */
  lemma SpaceIs(c: char)
    ensures IsSpace(c) <==> c in [' ', '\t', '\n', '\r', 11 as char, 12 as char]
  {
    if IsSpace(c) && c != ' ' { assert c as int in [9, 10, 11, 12, 13]; }
  }

  /** Alphabet characters are neither white space nor the terminator. */
  lemma DigitIsPlain(c: char)
    requires IsDigit(c)
    ensures !IsSpace(c) && c != '\0'
  {
    var d := Find(c, 0).value;
    assert Letter(d) as int >= '1' as int;
  }

  /** What c_str() shows of a string. */
  function CStr(s: string): (r: string)
    ensures r <= s && '\0' !in r && (|r| < |s| ==> s[|r|] == '\0')
  {
    if |s| == 0 || s[0] == '\0' then [] else [s[0]] + CStr(s[1..])
  }

  function LeadingSpaces(s: string): (n: nat)
    ensures n <= |s| && (forall i :: 0 <= i < n ==> IsSpace(s[i])) && (n < |s| ==> !IsSpace(s[n]))
  {
    if |s| == 0 || !IsSpace(s[0]) then 0 else 1 + LeadingSpaces(s[1..])
  }

  /** The length of the first word. */
  function WordLength(s: string): (n: nat)
    ensures n <= |s| && (forall i :: 0 <= i < n ==> !IsSpace(s[i])) && (n < |s| ==> IsSpace(s[n]))
  {
    if |s| == 0 || IsSpace(s[0]) then 0 else 1 + WordLength(s[1..])
  }

  /** A string without leading space, and up to the terminator. */
  function Trim(s: string): string { CStr(s)[LeadingSpaces(CStr(s))..] }

  /** The word that a string holds. */
  function Word(s: string): string { Trim(s)[..WordLength(Trim(s))] }

  predicate AllSpace(s: string) { forall i :: 0 <= i < |s| ==> IsSpace(s[i]) }

  predicate AllDigits(s: string) { forall i :: 0 <= i < |s| ==> IsDigit(s[i]) }

  function Read(s: string): (r: seq<nat>)
    requires AllDigits(s)
    ensures |r| == |s| && forall i :: 0 <= i < |s| ==> r[i] < 58 && Letter(r[i]) == s[i] && Find(s[i], 0) == Some(r[i])
  {
    seq(|s|, i requires 0 <= i < |s| => assert IsDigit(s[i]); Find(s[i], 0).value)
  }

  function Text(d: seq<nat>): (s: string)
    requires AreDigits(d, 58)
    ensures |s| == |d| && forall i :: 0 <= i < |d| ==> s[i] == Letter(d[i])
  {
    seq(|d|, i requires 0 <= i < |d| => Letter(d[i]))
  }

  lemma ReadText(d: seq<nat>)
    requires AreDigits(d, 58)
    ensures AllDigits(Text(d)) && Read(Text(d)) == d
  {
    forall i | 0 <= i < |d| ensures Find(Text(d)[i], 0) == Some(d[i]) { FindIs(d[i]); }
  }

  // ---------------------------------------------------------------- the codecs

  function Encode(v: seq<nat>): string {
    ConvertIs(v, 256, 58);
    Text(Convert(v, 256, 58))
  }

  /** Decoding a string without leading space: one word, and nothing but space after it. */
  function DecodeTrimmed(t: string): Option<seq<nat>> {
    var n := WordLength(t);
    if AllDigits(t[..n]) && AllSpace(t[n..]) then Some(Convert(Read(t[..n]), 58, 256)) else None
  }

  function Decode(s: string): Option<seq<nat>> { DecodeTrimmed(Trim(s)) }

  /** A string of alphabet characters is its own word. */
  lemma PlainWord(s: string)
    requires AllDigits(s)
    ensures Trim(s) == s && WordLength(s) == |s|
  {
    forall i | 0 <= i < |s| ensures !IsSpace(s[i]) && s[i] != '\0' { DigitIsPlain(s[i]); }
    CStrPlain(s);
    SpacesEnd(s, 0);
    WordEnds(s, |s|);
    assert s[0..] == s;
  }

  lemma {:induction false} CStrPlain(s: string)
    requires forall i :: 0 <= i < |s| ==> s[i] != '\0'
    ensures CStr(s) == s
  {
    if |s| > 0 { CStrPlain(s[1..]); }
  }

  /** Decoding what was encoded gives it back, for every byte string. */
  lemma DecodeOfEncode(v: seq<nat>)
    requires AreDigits(v, 256)
    ensures Decode(Encode(v)) == Some(v)
  {
    ConvertIs(v, 256, 58);
    ReadText(Convert(v, 256, 58));
    var s := Encode(v);
    PlainWord(s);
    assert s[..|s|] == s;
    ConvertBack(v, 256, 58);
  }

  /** Encoding what was decoded gives the word that the string held. */
  lemma EncodeOfDecode(s: string)
    requires Decode(s).Some?
    ensures Encode(Decode(s).value) == Word(s) && AreDigits(Decode(s).value, 256)
  {
    EncodeOfRead(Word(s));
  }

  lemma EncodeOfRead(w: string)
    requires AllDigits(w)
    ensures var v := Convert(Read(w), 58, 256); Encode(v) == w && AreDigits(v, 256)
  {
    ConvertIs(Read(w), 58, 256);
    ConvertBack(Read(w), 58, 256);
    assert Text(Read(w)) == w;
  }

  /** The bytes after the leading zeros, in base 58. */
  method EncodeNumber(s: seq<nat>) returns (d: seq<nat>)
    requires AreDigits(s, 256)
    ensures d == Digits(Num(s, 256), 58)
  {
    var size := |s| * 138 / 100 + 1;
    EncodeFits(|s|, 256, 58);
    var b58 := EmptyBuffer(size, 58);
    var length := 0;
    for k := 0 to |s|
      invariant |b58| == size && InUse(b58, length, 58) && Num(b58, 58) == Num(s[..k], 256)
    {
      NextFits(s, 256, k, 58, size);
      b58, length := MultiplyAdd(b58, length, 58, 256, s[k]);
    }
    assert s[..|s|] == s;
    var it := SkipZeros(b58, length, 58);
    d := b58[it..];
  }

  method Translate(zeroes: nat, d: seq<nat>) returns (str: string)
    requires AreDigits(d, 58)
    ensures str == Text(Zeros(zeroes) + d)
  {
    str := seq(zeroes, _ => '1');
    for k := 0 to |d|
      invariant str == Text(Zeros(zeroes) + d[..k])
    {
      str := str + [Letter(d[k])];
    }
    assert d[..|d|] == d;
  }

  /** EncodeBase58, with its assertion. */
  method EncodeBase58(v: seq<nat>) returns (str: string)
    requires AreDigits(v, 256)
    ensures str == Encode(v)
  {
    var zeroes := CountLeading(v);
    NumSkipsZeros(v, zeroes, 256);
    var d := EncodeNumber(v[zeroes..]);
    NumOfDigits(Num(v, 256), 58);
    str := Translate(zeroes, d);
  }

  /** Adding one more digit of s still fits the buffer. */
  lemma NextFits(s: seq<nat>, a: nat, k: nat, b: nat, size: nat)
    requires a >= 2 && AreDigits(s, a) && k < |s| && Pow(a, |s|) <= Pow(b, size)
    ensures Num(s[..k + 1], a) == Num(s[..k], a) * a + s[k] < Pow(b, size)
  {
    assert s[..k + 1] == s[..k] + [s[k]];
    NumSnoc(s[..k], s[k], a);
    NumBelow(s[..k + 1], a);
    PowGrows(a, k + 1, |s|);
  }

  /** The word's characters up to n are digits, the first z of them leading ones. */
  ghost predicate ReadSoFar(t: string, z: nat, n: nat) {
    z <= n <= |t| && AllDigits(t[..n]) && forall i :: 0 <= i < n ==> !IsSpace(t[i])
  }

  ghost function ValueSoFar(t: string, z: nat, n: nat): nat
    requires ReadSoFar(t, z, n)
  {
    Num(Read(t[..n])[z..], 58)
  }

  /** The digits after the leading ones, in base 256; none if a character of the word is not in the alphabet. */
  method DecodeWord(t: string, z: nat) returns (r: Option<seq<nat>>, end: nat)
    requires z <= |t| && forall i :: 0 <= i < z ==> t[i] == '1'
    ensures r.None? ==> !AllDigits(t[..WordLength(t)])
    ensures r.Some? ==> end == WordLength(t) && ReadSoFar(t, z, end) && r.value == Digits(ValueSoFar(t, z, end), 256)
  {
    var size := (|t| - z) * 733 / 1000 + 1;
    DecodeFits(|t| - z, 58, 256);
    var b256 := EmptyBuffer(size, 256);
    var length := 0;
    end := z;
    OnesAreDigits(t, z);
    while end < |t| && !IsSpace(t[end])
      invariant ReadSoFar(t, z, end) && |b256| == size && InUse(b256, length, 256)
      invariant Num(b256, 256) == ValueSoFar(t, z, end)
    {
      var ch := Find(t[end], 0);
      if ch.None? {
        NotInAlphabet(t, end);
        return None, end;
      }
      b256, length := DecodeDigit(t, z, end, b256, length);
      end := end + 1;
    }
    WordEnds(t, end);
    var it := SkipZeros(b256, length, 256);
    r := Some(b256[it..]);
  }

  method DecodeDigit(t: string, ghost z: nat, end: nat, buf: seq<nat>, length: nat) returns (r: seq<nat>,
                     newLength: nat)
    requires ReadSoFar(t, z, end) && end < |t| && IsDigit(t[end]) && !IsSpace(t[end])
    requires Pow(58, |t| - z) <= Pow(256, |buf|)
    requires InUse(buf, length, 256) && Num(buf, 256) == ValueSoFar(t, z, end)
    ensures |r| == |buf| && InUse(r, newLength, 256) && ReadSoFar(t, z, end + 1)
    ensures Num(r, 256) == ValueSoFar(t, z, end + 1)
  {
    DigitFits(t, z, end, |buf|);
    r, newLength := MultiplyAdd(buf, length, 256, 58, Find(t[end], 0).value);
  }

  lemma OnesAreDigits(t: string, z: nat)
    requires z <= |t| && forall i :: 0 <= i < z ==> t[i] == '1'
    ensures ReadSoFar(t, z, z) && ValueSoFar(t, z, z) == 0
  {
    forall i | 0 <= i < z ensures IsDigit(t[i]) && !IsSpace(t[i]) { FindIs(0); }
    assert Read(t[..z])[z..] == [];
  }

  lemma {:induction false} WordIncludes(t: string, end: nat)
    requires end < |t| && forall i :: 0 <= i <= end ==> !IsSpace(t[i])
    ensures end < WordLength(t)
  {
    if end > 0 { WordIncludes(t[1..], end - 1); }
  }

  lemma NotInAlphabet(t: string, end: nat)
    requires end < |t| && (forall i :: 0 <= i <= end ==> !IsSpace(t[i])) && !IsDigit(t[end])
    ensures !AllDigits(t[..WordLength(t)])
  {
    WordIncludes(t, end);
    assert t[..WordLength(t)][end] == t[end];
  }

  lemma WordEnds(t: string, end: nat)
    requires end <= |t| && (forall i :: 0 <= i < end ==> !IsSpace(t[i])) && (end < |t| ==> IsSpace(t[end]))
    ensures end == WordLength(t)
  {
    if end > 0 { WordIncludes(t, end - 1); }
  }

  lemma DigitFits(t: string, z: nat, end: nat, size: nat)
    requires ReadSoFar(t, z, end) && end < |t| && IsDigit(t[end]) && !IsSpace(t[end])
    requires Pow(58, |t| - z) <= Pow(256, size)
    ensures ReadSoFar(t, z, end + 1)
    ensures ValueSoFar(t, z, end + 1) == ValueSoFar(t, z, end) * 58 + Find(t[end], 0).value < Pow(256, size)
  {
    var s := Read(t[..end + 1])[z..];
    PowGrows(58, end + 1 - z, |t| - z);
    NextFits(s, 58, end - z, 256, size);
    assert s[..end - z] == Read(t[..end])[z..] && s[..end + 1 - z] == s;
  }

  method SkipSpaces(s: string, start: nat) returns (pos: nat)
    requires start <= |s|
    ensures start <= pos <= |s| && (forall i :: start <= i < pos ==> IsSpace(s[i])) && (pos < |s| ==> !IsSpace(s[pos]))
  {
    pos := start;
    while pos < |s| && IsSpace(s[pos])
      invariant start <= pos <= |s| && forall i :: start <= i < pos ==> IsSpace(s[i])
    {
      pos := pos + 1;
    }
  }

  lemma {:induction false} SpacesEnd(s: string, pos: nat)
    requires pos <= |s| && (forall i :: 0 <= i < pos ==> IsSpace(s[i])) && (pos < |s| ==> !IsSpace(s[pos]))
    ensures pos == LeadingSpaces(s)
  {
    if pos > 0 { SpacesEnd(s[1..], pos - 1); }
  }

  /** Leading ones are leading zeros. */
  lemma LeadingOnes(w: string, z: nat)
    requires AllDigits(w) && z <= |w| && (forall i :: 0 <= i < z ==> w[i] == '1') && (z < |w| ==> w[z] != '1')
    ensures LeadingZeros(Read(w)) == z && Num(Read(w), 58) == Num(Read(w)[z..], 58)
  {
    FindIs(0);
    LeadingZerosIs(Read(w), z);
    NumSkipsZeros(Read(w), z, 58);
  }

  method CountOnes(t: string) returns (z: nat)
    ensures z <= |t| && (forall i :: 0 <= i < z ==> t[i] == '1') && (z < |t| ==> t[z] != '1')
  {
    z := 0;
    while z < |t| && t[z] == '1'
      invariant z <= |t| && forall i :: 0 <= i < z ==> t[i] == '1'
    {
      z := z + 1;
    }
  }

  method DecodeText(t: string) returns (r: Option<seq<nat>>)
    ensures r == DecodeTrimmed(t)
  {
    var zeroes := CountOnes(t);
    var d, end := DecodeWord(t, zeroes);
    if d.None? { return None; }
    ghost var n := end;
    end := SkipSpaces(t, end);
    if end != |t| {
      assert t[n..][end - n] == t[end];
      return None;
    }
    LeadingOnes(t[..n], zeroes);
    r := Some(Zeros(zeroes) + d.value);
  }

  /** DecodeBase58: fails exactly when the word has a character outside the alphabet or something follows it. */
  method DecodeBase58(str: string) returns (r: Option<seq<nat>>)
    ensures r == Decode(str)
  {
    var psz := CStr(str);
    var pos := SkipSpaces(psz, 0);
    SpacesEnd(psz, pos);
    r := DecodeText(psz[pos..]);
  }
}
