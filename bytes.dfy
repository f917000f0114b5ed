/**
 * Byte strings, character classes and the decimal conversions of the C
 * library (`std::to_string` for integers, `atoi`, `atof`).
 *
 * Every `std::string` of the source is a sequence of bytes; a `char` is
 * signed on the target platform, which matters only for the word hash.
 */
module Bytes {
  type Byte = bv8
  type Bytes = seq<Byte>

  /** The bytes of an ASCII literal. */
  function Lit(s: string): (r: Bytes)
    ensures |r| == |s|
  {
    seq(|s|, i requires 0 <= i < |s| => ((s[i] as int) % 256) as bv8)
  }

  const TAB: Byte := 0x09
  const NEWLINE: Byte := 0x0A
  const CR: Byte := 0x0D
  const SPACE: Byte := 0x20
  const HASH_SIGN: Byte := 0x23
  const PLUS: Byte := 0x2B
  const MINUS: Byte := 0x2D
  const DOT: Byte := 0x2E
  const LESS: Byte := 0x3C
  const EQUALS: Byte := 0x3D
  const GREATER: Byte := 0x3E
  const UNDERSCORE: Byte := 0x5F
  const PIPE: Byte := 0x7C

  /** A byte `10xxxxxx`, which continues a multi-byte UTF-8 character. */
  predicate IsContinuation(b: Byte) { b & 0xC0 == 0x80 }

  /** A byte `11xxxxxx`, which starts a multi-byte UTF-8 character. */
  predicate IsLead(b: Byte) { b & 0xC0 == 0xC0 }

  predicate IsAscii(b: Byte) { b & 0x80 == 0 }

  predicate IsDigit(b: Byte) { 0x30 <= b <= 0x39 }

  /** `isspace` in the C locale. */
  predicate IsCSpace(b: Byte) { b == SPACE || (0x09 <= b <= 0x0D) }

  /** `tolower` on an unsigned char in the C locale. */
  function LowerByte(b: Byte): (r: Byte)
    ensures 0x41 <= b <= 0x5A ==> r == b + 0x20
    ensures !(0x41 <= b <= 0x5A) ==> r == b
  {
    if 0x41 <= b <= 0x5A then b + 0x20 else b
  }

  // ---------------------------------------------------------------------
  // Decimal rendering (`std::to_string` of an integer)

  function DigitByte(d: nat): (b: Byte)
    requires d < 10
    ensures IsDigit(b) && (b - 0x30) as nat == d
  {
    (0x30 + d) as bv8
  }

  function NatToString(n: nat): (r: Bytes)
    decreases n
  {
    if n < 10 then [DigitByte(n)] else NatToString(n / 10) + [DigitByte(n % 10)]
  }

  function IntToString(n: int): Bytes
  {
    if n < 0 then [MINUS] + NatToString(-n) else NatToString(n)
  }

  /** `std::to_string` of a float holding the integer `n`: `%f` gives six decimals. */
  function IntegralFloatToString(n: int): Bytes
  {
    IntToString(n) + Lit(".000000")
  }

  // ---------------------------------------------------------------------
  // Decimal parsing (`atoi`, `atof`)

  /** Length of the run of decimal digits at the front of `s`. */
  function DigitRun(s: Bytes): (k: nat)
    ensures k <= |s|
    ensures forall i :: 0 <= i < k ==> IsDigit(s[i])
    ensures k < |s| ==> !IsDigit(s[k])
  {
    if |s| > 0 && IsDigit(s[0]) then 1 + DigitRun(s[1..]) else 0
  }

  predicate AllDigits(s: Bytes) { forall i :: 0 <= i < |s| ==> IsDigit(s[i]) }

  /** The value of a string of decimal digits. */
  function DigitsValue(s: Bytes): nat
    requires AllDigits(s)
  {
    if s == [] then 0 else DigitsValue(s[..|s| - 1]) * 10 + (s[|s| - 1] - 0x30) as nat
  }

  function SkipSpace(s: Bytes): (r: Bytes)
    ensures |r| <= |s| && r == s[|s| - |r|..]
    ensures r == [] || !IsCSpace(r[0])
  {
    if |s| > 0 && IsCSpace(s[0]) then SkipSpace(s[1..]) else s
  }

  /** The value of the leading digit run of `s`. */
  function LeadingValue(s: Bytes): nat
  {
    DigitsValue(s[..DigitRun(s)])
  }

  /**
   * `atoi`: leading white space, an optional sign, then the longest run of
   * digits; 0 when there are none. Overflow is not modelled (integers are
   * unbounded).
   */
  function ParseInt(s: Bytes): int
  {
    var t := SkipSpace(s);
    if |t| > 0 && t[0] == MINUS then -(LeadingValue(t[1..]) as int)
    else if |t| > 0 && t[0] == PLUS then LeadingValue(t[1..])
    else LeadingValue(t)
  }

  function Pow10(k: nat): (p: nat)
    ensures p >= 1
  {
    if k == 0 then 1 else 10 * Pow10(k - 1)
  }

  /** `[digits] ['.' digits]` read as a non-negative real. */
  function UnsignedDecimal(s: Bytes): real
  {
    var k := DigitRun(s);
    var whole := DigitsValue(s[..k]) as real;
    if k < |s| && s[k] == DOT then
      var f := s[k + 1..];
      var m := DigitRun(f);
      whole + (DigitsValue(f[..m]) as real) / (Pow10(m) as real)
    else whole
  }

  /**
   * `atof` on plain decimal notation: white space, an optional sign, digits
   * and an optional fraction. Exponents, hexadecimal floats, `inf` and `nan`
   * are not modelled.
   */
  function ParseReal(s: Bytes): real
  {
    var t := SkipSpace(s);
    if |t| > 0 && t[0] == MINUS then -(UnsignedDecimal(t[1..]))
    else if |t| > 0 && t[0] == PLUS then UnsignedDecimal(t[1..])
    else UnsignedDecimal(t)
  }

  // ---------------------------------------------------------------------
  // Properties of the rendering

  lemma {:induction false} NatToStringDigits(n: nat)
    ensures |NatToString(n)| >= 1 && AllDigits(NatToString(n))
    ensures DigitsValue(NatToString(n)) == n
    decreases n
  {
    if n >= 10 {
      NatToStringDigits(n / 10);
      var s := NatToString(n);
      assert s[..|s| - 1] == NatToString(n / 10);
    }
  }

  /** `s` does not start with a digit, so a digit run ends where it begins. */
  predicate NoDigitFirst(s: Bytes) { s == [] || !IsDigit(s[0]) }

  lemma {:induction false} DigitRunOfDigitsThen(d: Bytes, rest: Bytes)
    requires AllDigits(d)
    requires NoDigitFirst(rest)
    ensures DigitRun(d + rest) == |d|
    decreases |d|
  {
    if d != [] {
      assert (d + rest)[1..] == d[1..] + rest;
      DigitRunOfDigitsThen(d[1..], rest);
    } else {
      assert d + rest == rest;
    }
  }

  lemma LeadingValueOfDigitsThen(d: Bytes, rest: Bytes)
    requires AllDigits(d)
    requires NoDigitFirst(rest)
    ensures LeadingValue(d + rest) == DigitsValue(d)
  {
    DigitRunOfDigitsThen(d, rest);
    assert (d + rest)[..|d|] == d;
  }

  lemma ParseIntUnsigned(s: Bytes)
    requires |s| > 0 && IsDigit(s[0])
    ensures ParseInt(s) == LeadingValue(s)
  {
    assert SkipSpace(s) == s;
  }

  lemma ParseIntNegative(s: Bytes)
    requires |s| > 0 && s[0] == MINUS
    ensures ParseInt(s) == -(LeadingValue(s[1..]) as int)
  {
    assert SkipSpace(s) == s;
  }

  /** `atoi` reads back what `to_string` wrote, whatever non-digit byte follows. */
  lemma ParseIntOfIntToString(n: int, rest: Bytes)
    requires NoDigitFirst(rest)
    ensures ParseInt(IntToString(n) + rest) == n
  {
    var m: nat := if n < 0 then -n else n;
    var d := NatToString(m);
    NatToStringDigits(m);
    LeadingValueOfDigitsThen(d, rest);
    if n < 0 {
      var s := [MINUS] + (d + rest);
      assert IntToString(n) + rest == s;
      assert s[1..] == d + rest;
      ParseIntNegative(s);
    } else {
      assert IntToString(n) + rest == d + rest;
      ParseIntUnsigned(d + rest);
    }
  }

  lemma ParseIntOfIntegralFloat(n: int)
    ensures ParseInt(IntegralFloatToString(n)) == n
  {
    var dot := Lit(".000000");
    assert dot[0] == DOT;
    ParseIntOfIntToString(n, dot);
  }

  lemma ParseIntRoundTrip(n: int)
    ensures ParseInt(IntToString(n)) == n
  {
    ParseIntOfIntToString(n, []);
    assert IntToString(n) + [] == IntToString(n);
  }

  /** A rendered integer holds digits and possibly a leading minus, nothing else. */
  lemma IntToStringBytes(n: int)
    ensures |IntToString(n)| >= 1
    ensures forall i :: 0 <= i < |IntToString(n)| ==>
      IsDigit(IntToString(n)[i]) || (i == 0 && IntToString(n)[i] == MINUS)
  {
    var m: nat := if n < 0 then -n else n;
    NatToStringDigits(m);
  }

  lemma {:induction false} ZerosValue(k: nat)
    ensures AllDigits(seq(k, _ => 0x30 as Byte)) && DigitsValue(seq(k, _ => 0x30 as Byte)) == 0
  {
    if k > 0 {
      ZerosValue(k - 1);
      var z := seq(k, _ => 0x30 as Byte);
      assert z[..k - 1] == seq(k - 1, _ => 0x30 as Byte);
    }
  }

  lemma SixZeros()
    ensures Lit(".000000") == [DOT] + seq(6, _ => 0x30 as Byte)
  {
  }

  /** How `[digits] '.' [digits]` splits at its digit runs. */
  lemma DecimalParts(s: Bytes, d: Bytes, f: Bytes)
    requires s == d + [DOT] + f && AllDigits(d) && AllDigits(f)
    ensures DigitRun(s) == |d| && s[..|d|] == d && s[|d|] == DOT && s[|d| + 1..] == f
    ensures DigitRun(f) == |f| && f[..|f|] == f
  {
    assert s[..|d|] == d && s[|d|] == DOT && s[|d| + 1..] == f;
    assert !IsDigit(s[|d|]);
    assert forall i :: 0 <= i < |d| ==> IsDigit(s[i]);
  }

  lemma UnsignedDecimalOfZeroFraction(d: Bytes)
    requires AllDigits(d)
    ensures UnsignedDecimal(d + [DOT] + seq(6, _ => 0x30 as Byte)) == DigitsValue(d) as real
  {
    var z := seq(6, _ => 0x30 as Byte);
    ZerosValue(6);
    DecimalParts(d + [DOT] + z, d, z);
    var v := DigitsValue(z) as real;
    assert v == 0.0;
    assert v / (Pow10(6) as real) == 0.0;
  }

  /** `atof` reads back what `std::to_string` wrote for a non-negative integral float. */
  lemma ParseRealOfIntegralFloat(n: nat)
    ensures ParseReal(IntegralFloatToString(n)) == n as real
  {
    var d := NatToString(n);
    NatToStringDigits(n);
    SixZeros();
    var s := d + [DOT] + seq(6, _ => 0x30 as Byte);
    assert IntegralFloatToString(n) == s;
    assert SkipSpace(s) == s;
    UnsignedDecimalOfZeroFraction(d);
  }
}
