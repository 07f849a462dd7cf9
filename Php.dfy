/**
  PHP values as they arrive from `json_decode(..., true)` (request bodies and
  token payloads) and as PHP compares and converts them: truthiness (`if (!$x)`,
  `empty`), `isset`, string conversion, `(int)` casts and the loose `==` and `<`
  of PHP 8.
*/
module Php {

  /** A scalar JSON value after `json_decode(..., true)`. */
  datatype Value = Null | Bool(b: bool) | Int(i: int) | Str(s: string)

  /** A decoded JSON object: an associative array from keys to values. */
  type Assoc = map<string, Value>

  // ---------------------------------------------------------------- decimal text

  predicate IsDigit(c: char) { '0' <= c <= '9' }

  predicate AllDigits(s: string) { forall i :: 0 <= i < |s| ==> IsDigit(s[i]) }

  function DigitChar(d: nat): (c: char)
    requires d < 10
    ensures IsDigit(c)
  {
    ('0' as int + d) as char
  }

  /** The decimal numeral of `n`, without leading zeros. */
  function NatToString(n: nat): (s: string)
    ensures |s| >= 1 && AllDigits(s)
    ensures s[0] == '0' ==> n == 0
    decreases n
  {
    if n < 10 then [DigitChar(n)] else NatToString(n / 10) + [DigitChar(n % 10)]
  }

  /** PHP's string form of an integer: a minus sign for negatives, then the numeral. */
  function IntToString(i: int): string
  {
    if i < 0 then "-" + NatToString(-i) else NatToString(i)
  }

  /** The value of a string of decimal digits (0 for the empty string). */
  function DigitsValue(s: string): nat
    requires AllDigits(s)
  {
    if s == [] then 0 else DigitsValue(s[..|s| - 1]) * 10 + (s[|s| - 1] as int - '0' as int)
  }

  lemma {:induction false} DigitsValueOfNatToString(n: nat)
    ensures DigitsValue(NatToString(n)) == n
    decreases n
  {
    if n >= 10 {
      DigitsValueOfNatToString(n / 10);
      var s := NatToString(n);
      assert s[..|s| - 1] == NatToString(n / 10);
    }
  }

  /** The longest prefix of `s` made of decimal digits. */
  function LeadingDigits(s: string): (d: string)
    ensures |d| <= |s| && AllDigits(d) && d == s[..|d|]
    ensures |d| == |s| || !IsDigit(s[|d|])
  {
    if s != [] && IsDigit(s[0]) then [s[0]] + LeadingDigits(s[1..]) else ""
  }

  lemma {:induction false} LeadingDigitsOfDigits(s: string)
    requires AllDigits(s)
    ensures LeadingDigits(s) == s
  {
    if s != [] { LeadingDigitsOfDigits(s[1..]); }
  }

  /** The ASCII whitespace PHP skips before a number: space, tab, LF, VT, FF, CR. */
  predicate IsSpace(c: char) { c == ' ' || 9 <= c as int <= 13 }

  function SkipSpace(s: string): string
  {
    if s != [] && IsSpace(s[0]) then SkipSpace(s[1..]) else s
  }

  // ---------------------------------------------------------------- numbers in text

  /** A decimal number, worth `mantissa * 10^scale`. */
  datatype Decimal = Decimal(mantissa: int, scale: int)

  function Pow10(n: nat): (r: nat)
    ensures r >= 1
  {
    if n == 0 then 1 else 10 * Pow10(n - 1)
  }

  /** The exponent part `e<sign><digits>` at the start of `s`; 0 when there is none. */
  function ExponentOf(s: string): int
  {
    if s != [] && (s[0] == 'e' || s[0] == 'E') then
      var t := s[1..];
      var u := if t != [] && (t[0] == '-' || t[0] == '+') then t[1..] else t;
      var m: int := DigitsValue(LeadingDigits(u));
      if t != [] && t[0] == '-' then -m else m
    else 0
  }

  /** The number after its integer digits `whole`: an optional fraction, then an optional exponent. */
  function FractionPart(whole: string, rest: string): Decimal
    requires AllDigits(whole)
  {
    if rest != [] && rest[0] == '.' then
      var f := LeadingDigits(rest[1..]);
      Decimal(DigitsValue(whole + f), ExponentOf(rest[1..][|f|..]) - |f|)
    else Decimal(DigitsValue(whole), ExponentOf(rest))
  }

  /** An unsigned number: the integer digits, then the fraction and exponent. */
  function UnsignedNumber(u: string): Decimal
  {
    var whole := LeadingDigits(u);
    FractionPart(whole, u[|whole|..])
  }

  /**
    The number at the start of `t`: an optional sign, the integer digits, an
    optional `.` and fraction digits, an optional exponent. The rest of the text
    is ignored, and text without digits reads as 0.
  */
  function SignedNumber(t: string): Decimal
  {
    if t != [] && t[0] == '-' then
      var d := UnsignedNumber(t[1..]);
      Decimal(-d.mantissa, d.scale)
    else if t != [] && t[0] == '+' then UnsignedNumber(t[1..])
    else UnsignedNumber(t)
  }

  /** The integer part of a decimal: truncation toward zero. */
  function Truncate(d: Decimal): int
  {
    if d.scale >= 0 then d.mantissa * Pow10(d.scale)
    else if d.mantissa >= 0 then d.mantissa / Pow10(-d.scale)
    else -((-d.mantissa) / Pow10(-d.scale))
  }

  const PhpIntMax: int := 0x7FFF_FFFF_FFFF_FFFF
  const PhpIntMin: int := -0x8000_0000_0000_0000

  /** Clamping to the 64-bit range, as PHP does with a finite double outside it. */
  function Cap(x: int): (r: int)
    ensures PhpIntMin <= r <= PhpIntMax
    ensures PhpIntMin <= x <= PhpIntMax ==> r == x
  {
    if x > PhpIntMax then PhpIntMax else if x < PhpIntMin then PhpIntMin else x
  }

  /** Powers of two, for the limits of IEEE 754 doubles. */
  function Pow2(n: nat): (r: nat)
    ensures r >= 1
  {
    if n == 0 then 1 else 2 * Pow2(n - 1)
  }

  /**
    The least magnitude a decimal rounds to infinity at as an IEEE 754 double:
    halfway between the largest finite double, `2^1024 - 2^971`, and `2^1024`,
    where rounding half to even goes up.
  */
  const DoubleOverflow: int := Pow2(1024) - Pow2(970)

  /** Exponents add when powers of two multiply. */
  lemma {:induction false} Pow2Add(a: nat, b: nat)
    ensures Pow2(a + b) == Pow2(a) * Pow2(b)
  {
    if a > 0 {
      Pow2Add(a - 1, b);
      assert Pow2(a + b) == 2 * Pow2(a - 1 + b);
    }
  }

  /** Powers of two grow with their exponent. */
  lemma Pow2Monotone(a: nat, b: nat)
    requires a <= b
    ensures Pow2(a) <= Pow2(b)
  {
    Pow2Add(a, b - a);
    var k := Pow2(b - a);
    assert Pow2(b) == Pow2(a) * k;
    assert Pow2(a) * k >= Pow2(a) * 1;
  }

  /** `2^64`, one more than the largest unsigned 64-bit integer. */
  lemma Pow2Of64()
    ensures Pow2(64) == 0x1_0000_0000_0000_0000
  {
    assert Pow2(1) == 2;
    Pow2Add(1, 1);
    Pow2Add(2, 2);
    Pow2Add(4, 4);
    assert Pow2(8) == 256;
    Pow2Add(8, 8);
    assert Pow2(16) == 0x1_0000;
    Pow2Add(16, 16);
    assert Pow2(32) == 0x1_0000_0000;
    Pow2Add(32, 32);
  }

  /** Between `2^(a+b-1)` and `2^(a+b)` lies `2^(a+b) - 2^a`. */
  lemma GapBounds(a: nat, b: nat)
    requires b >= 1
    ensures Pow2(a + b - 1) <= Pow2(a + b) - Pow2(a) < Pow2(a + b)
  {
    Pow2Monotone(a, a + b - 1);
    assert Pow2(a + b) == 2 * Pow2(a + b - 1);
  }

  /** A double overflows at a number between `2^1023` and `2^1024`. */
  lemma DoubleOverflowBounds()
    ensures Pow2(1023) <= DoubleOverflow < Pow2(1024)
  {
    GapBounds(970, 54);
  }

  /** Ten to the `e` lies between two to the `3e` and two to the `4e`. */
  lemma {:induction false} Pow10Between(e: nat)
    ensures Pow2(3 * e) <= Pow10(e) <= Pow2(4 * e)
  {
    if e > 0 {
      Pow10Between(e - 1);
      Pow2Add(3 * (e - 1), 3);
      Pow2Add(4 * (e - 1), 4);
      assert 3 * (e - 1) + 3 == 3 * e && 4 * (e - 1) + 4 == 4 * e;
      assert Pow2(3) == 8 && Pow2(4) == 16;
      var t := Pow10(e - 1);
      assert Pow10(e) == 10 * t;
      assert Pow2(3 * e) == Pow2(3 * (e - 1)) * 8;
      assert Pow2(4 * e) == Pow2(4 * (e - 1)) * 16;
    }
  }

  /** The whole 64-bit range lies strictly inside the range of finite doubles. */
  lemma IntRangeBelowDoubleOverflow()
    ensures -DoubleOverflow < PhpIntMin && PhpIntMax < DoubleOverflow
  {
    DoubleOverflowBounds();
    Pow2Monotone(64, 1023);
    Pow2Of64();
  }

  /**
    PHP's conversion of a number read from a string to an integer: a number
    that rounds to infinity as a double gives 0, any other one outside the
    64-bit range the nearest bound. Since `DoubleOverflow` is an integer, a
    decimal reaches it exactly when its integer part does, so the test can be
    made after truncation.
  */
  function ToPhpInt(x: int): (r: int)
    ensures PhpIntMin <= r <= PhpIntMax
    ensures PhpIntMin <= x <= PhpIntMax ==> r == x
    ensures x >= DoubleOverflow || x <= -DoubleOverflow ==> r == 0
    ensures -DoubleOverflow < x < DoubleOverflow ==> r == Cap(x)
  {
    IntRangeBelowDoubleOverflow();
    if x >= DoubleOverflow || x <= -DoubleOverflow then 0 else Cap(x)
  }

  /**
    PHP 8's `(int)` cast of a string: leading whitespace, then the number at the
    start of the text read with its fraction and exponent, truncated toward zero
    and converted by `ToPhpInt`; 0 when no number starts the text.
  */
  function IntCast(s: string): int
  {
    ToPhpInt(Truncate(SignedNumber(SkipSpace(s))))
  }

  lemma NumberOfNumeral(d: string, rest: string)
    requires d != [] && AllDigits(d) && (rest == [] || !IsDigit(rest[0]))
    ensures SkipSpace(d + rest) == d + rest
    ensures SignedNumber(d + rest) == UnsignedNumber(d + rest) == FractionPart(d, rest)
  {
    LeadingDigitsAt(d, rest);
    assert (d + rest)[0] == d[0];
    assert (d + rest)[|d|..] == rest;
  }

  /** A minus sign before a number negates it. */
  lemma NumberOfNegated(t: string)
    requires t != [] && IsDigit(t[0])
    ensures SkipSpace("-" + t) == "-" + t
    ensures SignedNumber("-" + t) == Decimal(-SignedNumber(t).mantissa, SignedNumber(t).scale)
  {
    assert ("-" + t)[1..] == t;
  }

  lemma {:induction false} LeadingDigitsAt(d: string, rest: string)
    requires AllDigits(d) && (rest == [] || !IsDigit(rest[0]))
    ensures LeadingDigits(d + rest) == d
  {
    if d != [] {
      assert (d + rest)[1..] == d[1..] + rest;
      LeadingDigitsAt(d[1..], rest);
    } else {
      assert d + rest == rest;
    }
  }

  lemma DigitsValueSnoc(d: string, c: char)
    requires AllDigits(d) && IsDigit(c)
    ensures DigitsValue(d + [c]) == DigitsValue(d) * 10 + (c as int - '0' as int)
  {
    assert (d + [c])[..|d|] == d;
  }

  /** The decimal text of an integer reads as that integer. */
  lemma NumberOfIntText(i: int)
    ensures SkipSpace(IntToString(i)) == IntToString(i)
    ensures SignedNumber(IntToString(i)) == Decimal(i, 0)
  {
    var n: nat := if i < 0 then -i else i;
    var d := NatToString(n);
    DigitsValueOfNatToString(n);
    NumberOfNumeral(d, "");
    assert d + "" == d;
    if i < 0 {
      NumberOfNegated(d);
    }
  }

  /** `n.0` reads as ten `n` tenths. */
  lemma NumberOfZeroFraction(n: nat)
    ensures SkipSpace(NatToString(n) + ".0") == NatToString(n) + ".0"
    ensures SignedNumber(NatToString(n) + ".0") == Decimal(10 * n, -1)
  {
    var d := NatToString(n);
    DigitsValueOfNatToString(n);
    NumberOfNumeral(d, ".0");
    assert LeadingDigits("0") == "0";
    DigitsValueSnoc(d, '0');
  }

  /** `n.f`, for a single fraction digit `f`, reads as `10 n + f` tenths. */
  lemma NumberOfFraction(n: nat, f: char)
    requires IsDigit(f)
    ensures SkipSpace(NatToString(n) + "." + [f]) == NatToString(n) + "." + [f]
    ensures SignedNumber(NatToString(n) + "." + [f]) == Decimal(10 * n + (f as int - '0' as int), -1)
  {
    var d := NatToString(n);
    DigitsValueOfNatToString(n);
    NumberOfNumeralFraction(d, f, "");
    assert d + "." + [f] + "" == d + "." + [f];
    DigitsValueSnoc(d, f);
  }

  /** `n.fEe`, for a fraction digit `f` and a digit string exponent `e`, reads as `10 n + f` times ten to the `e - 1`. */
  lemma NumberOfFractionExponent(n: nat, f: char, e: nat)
    requires IsDigit(f)
    ensures SkipSpace(NatToString(n) + "." + [f] + "e" + NatToString(e)) ==
              NatToString(n) + "." + [f] + "e" + NatToString(e)
    ensures SignedNumber(NatToString(n) + "." + [f] + "e" + NatToString(e)) ==
              Decimal(10 * n + (f as int - '0' as int), e - 1)
  {
    var d := NatToString(n);
    var tail := "e" + NatToString(e);
    assert tail[0] == 'e';
    DigitsValueOfNatToString(n);
    NumberOfNumeralFraction(d, f, tail);
    assert d + "." + [f] + tail == d + "." + [f] + "e" + NatToString(e);
    ExponentOfDigits(e);
    DigitsValueSnoc(d, f);
  }

  /** A numeral, `.`, one fraction digit, then text that is no digit. */
  lemma NumberOfNumeralFraction(d: string, f: char, tail: string)
    requires d != [] && AllDigits(d) && IsDigit(f) && (tail == [] || !IsDigit(tail[0]))
    ensures SkipSpace(d + "." + [f] + tail) == d + "." + [f] + tail
    ensures SignedNumber(d + "." + [f] + tail) == Decimal(DigitsValue(d + [f]), ExponentOf(tail) - 1)
  {
    assert d + "." + [f] + tail == d + ("." + [f] + tail);
    NumberOfNumeral(d, "." + [f] + tail);
    FractionPartOf(d, f, tail);
  }

  /** The fraction part `.f` followed by text that is no digit. */
  lemma FractionPartOf(d: string, f: char, tail: string)
    requires AllDigits(d) && IsDigit(f) && (tail == [] || !IsDigit(tail[0]))
    ensures FractionPart(d, "." + [f] + tail) == Decimal(DigitsValue(d + [f]), ExponentOf(tail) - 1)
  {
    var r := "." + [f] + tail;
    assert r[1..] == [f] + tail;
    LeadingDigitsAt([f], tail);
    assert r[1..][1..] == tail;
  }

  /** `e` followed by a numeral is that exponent. */
  lemma ExponentOfDigits(e: nat)
    ensures ExponentOf("e" + NatToString(e)) == e
  {
    var x := NatToString(e);
    DigitsValueOfNatToString(e);
    LeadingDigitsOfDigits(x);
    assert ("e" + x)[1..] == x;
  }

  /** `nEe`, for digit strings `n` and `e`, reads as `n` times ten to the `e`. */
  lemma NumberOfExponent(n: nat, e: nat)
    ensures SkipSpace(NatToString(n) + "e" + NatToString(e)) == NatToString(n) + "e" + NatToString(e)
    ensures SignedNumber(NatToString(n) + "e" + NatToString(e)) == Decimal(n, e)
  {
    var d := NatToString(n);
    var x := NatToString(e);
    DigitsValueOfNatToString(n);
    DigitsValueOfNatToString(e);
    LeadingDigitsOfDigits(x);
    assert d + "e" + x == d + ("e" + x);
    NumberOfNumeral(d, "e" + x);
    assert ("e" + x)[1..] == x;
  }

  /** A numeral casts to its value, and a minus sign before it negates the value, within the 64-bit range. */
  lemma IntCastOfNumeral(d: string)
    requires d != [] && AllDigits(d) && DigitsValue(d) <= PhpIntMax
    ensures IntCast(d) == DigitsValue(d)
    ensures IntCast("-" + d) == -(DigitsValue(d) as int)
  {
    NumberOfNumeral(d, "");
    assert d + "" == d;
    NumberOfNegated(d);
    assert Pow10(0) == 1;
  }

  /**
    Casting the string form of an integer in the 64-bit range gives the integer;
    outside it, the nearest bound, or 0 once the integer is beyond a double's range.
  */
  lemma IntCastOfIntToString(i: int)
    ensures IntCast(IntToString(i)) == ToPhpInt(i)
  {
    NumberOfIntText(i);
    assert Pow10(0) == 1;
  }

  /** An integer with a fraction digit casts to the integer: the fraction is truncated. */
  lemma IntCastOfFraction(n: nat, f: char)
    requires IsDigit(f)
    ensures IntCast(NatToString(n) + "." + [f]) == ToPhpInt(n)
  {
    NumberOfFraction(n, f);
    assert Pow10(1) == 10;
    assert (10 * n + (f as int - '0' as int)) / 10 == n;
  }

  /** An exponent is applied before the cast: `nEe` casts to `n` times ten to the `e`, converted by `ToPhpInt`. */
  lemma IntCastOfExponent(n: nat, e: nat)
    ensures IntCast(NatToString(n) + "e" + NatToString(e)) == ToPhpInt(n * Pow10(e))
  {
    NumberOfExponent(n, e);
  }

  /** The exponent counts: `1e2` casts to 100. */
  lemma IntCastReadsExponent()
    ensures IntCast("1e2") == 100
  {
    assert NatToString(1) == "1" && NatToString(2) == "2";
    IntCastOfExponent(1, 2);
    assert Pow10(2) == 100;
  }

  /** `1e400` is infinite as a double and casts to 0. */
  lemma IntCastOfInfinity()
    ensures IntCast("1e400") == 0
  {
    var t := NatToString(1) + "e" + NatToString(400);
    assert NatToString(1) == "1" && NatToString(400) == "400";
    assert t == "1e400";
    IntCastOfExponent(1, 400);
    Pow10BeyondDouble();
  }

  /** `1e200` is a finite double beyond the 64-bit range and casts to the largest integer. */
  lemma IntCastOfLargeFinite()
    ensures IntCast("1e200") == PhpIntMax
  {
    var t := NatToString(1) + "e" + NatToString(200);
    assert NatToString(1) == "1" && NatToString(200) == "200";
    assert t == "1e200";
    IntCastOfExponent(1, 200);
    Pow10WithinDouble();
  }

  lemma Pow10BeyondDouble()
    ensures Pow10(400) >= DoubleOverflow
  {
    Pow10Between(400);
    DoubleOverflowBounds();
    Pow2Monotone(1024, 1200);
  }

  lemma Pow10WithinDouble()
    ensures PhpIntMax < Pow10(200) < DoubleOverflow
  {
    Pow10Between(200);
    DoubleOverflowBounds();
    Pow2Monotone(800, 1022);
    assert Pow2(1023) == 2 * Pow2(1022);
    Pow2Monotone(64, 600);
    Pow2Of64();
  }

  /** A fraction and an exponent together: `1.5e1` casts to 15. */
  lemma IntCastReadsFractionExponent()
    ensures IntCast("1.5e1") == 15
  {
    var t := NatToString(1) + "." + ['5'] + "e" + NatToString(1);
    assert NatToString(1) == "1";
    assert t == "1.5e1";
    NumberOfFractionExponent(1, '5', 1);
    assert SignedNumber(t) == Decimal(15, 0);
    assert Truncate(Decimal(15, 0)) == 15 by { assert Pow10(0) == 1; }
  }

  /** A negative number truncates toward zero: `-1.9` casts to -1. */
  lemma IntCastTruncatesTowardZero()
    ensures IntCast("-1.9") == -1
  {
    var t := NatToString(1) + "." + ['9'];
    assert NatToString(1) == "1";
    assert t == "1.9";
    NumberOfFraction(1, '9');
    assert SignedNumber(t) == Decimal(19, -1);
    NumberOfNegated(t);
    assert "-1.9" == "-" + t;
    assert SignedNumber("-" + t) == Decimal(-19, -1);
    assert Truncate(Decimal(-19, -1)) == -1 by { assert Pow10(1) == 10; }
  }

  /** `-0.5e1` casts to -5. */
  lemma IntCastOfNegativeExponent()
    ensures IntCast("-0.5e1") == -5
  {
    var t := NatToString(0) + "." + ['5'] + "e" + NatToString(1);
    assert NatToString(0) == "0" && NatToString(1) == "1";
    assert t == "0.5e1";
    NumberOfFractionExponent(0, '5', 1);
    assert SignedNumber(t) == Decimal(5, 0);
    NumberOfNegated(t);
    assert "-0.5e1" == "-" + t;
    assert SignedNumber("-" + t) == Decimal(-5, 0);
    assert Truncate(Decimal(-5, 0)) == -5 by { assert Pow10(0) == 1; }
  }

  /**
    A numeric string in the sense of PHP's loose comparisons, restricted to
    integer forms: an optional sign followed by at least one digit.
  */
  predicate IsIntText(s: string)
  {
    if s != [] && (s[0] == '-' || s[0] == '+') then |s| >= 2 && AllDigits(s[1..])
    else |s| >= 1 && AllDigits(s)
  }

  function IntTextValue(s: string): int
    requires IsIntText(s)
  {
    if s[0] == '-' then -(DigitsValue(s[1..]) as int)
    else if s[0] == '+' then DigitsValue(s[1..])
    else DigitsValue(s)
  }

  lemma IntToStringIsIntText(i: int)
    ensures IsIntText(IntToString(i)) && IntTextValue(IntToString(i)) == i
  {
    var n: nat := if i < 0 then -i else i;
    DigitsValueOfNatToString(n);
    if i < 0 {
      assert ("-" + NatToString(n))[1..] == NatToString(n);
    }
  }

  // ---------------------------------------------------------------- conversions

  /** PHP truthiness: `if ($v)`. */
  predicate Truthy(v: Value)
  {
    match v
    case Null => false
    case Bool(b) => b
    case Int(i) => i != 0
    case Str(s) => s != "" && s != "0"
  }

  /** Truthiness of a string: both `""` and `"0"` are false. */
  predicate TruthyText(s: string)
  {
    s != "" && s != "0"
  }

  /** PHP's conversion of a scalar to a string. */
  function Text(v: Value): string
  {
    match v
    case Null => ""
    case Bool(b) => if b then "1" else ""
    case Int(i) => IntToString(i)
    case Str(s) => s
  }

  /** `$m[$k]`, which is `null` for a missing key. */
  function Get(m: Assoc, k: string): Value
  {
    if k in m then m[k] else Null
  }

  /** `isset($m[$k])`: present and not `null`. */
  predicate IsSet(m: Assoc, k: string)
  {
    k in m && m[k] != Null
  }

  /** `empty($m[$k])`. */
  predicate IsEmpty(m: Assoc, k: string)
  {
    !Truthy(Get(m, k))
  }

  /** `$m[$k] ?? $default`. */
  function GetOr(m: Assoc, k: string, default: Value): (r: Value)
    ensures IsSet(m, k) ==> r == m[k]
    ensures !IsSet(m, k) ==> r == default
  {
    if IsSet(m, k) then m[k] else default
  }

  // ---------------------------------------------------------------- comparisons

  /** Byte-wise string order, as PHP's `<` on two non-numeric strings. */
  predicate TextLess(a: string, b: string)
  {
    if a == [] then b != []
    else if b == [] then false
    else if a[0] != b[0] then a[0] < b[0]
    else TextLess(a[1..], b[1..])
  }

  /** PHP 8 loose equality `$a == $b` on scalars. */
  predicate LooseEq(a: Value, b: Value)
  {
    match (a, b)
    case (Bool(x), _) => x == Truthy(b)
    case (_, Bool(y)) => Truthy(a) == y
    case (Null, Null) => true
    case (Null, Str(t)) => t == ""
    case (Str(s), Null) => s == ""
    case (Null, Int(j)) => j == 0
    case (Int(i), Null) => i == 0
    case (Int(i), Int(j)) => i == j
    case (Int(i), Str(t)) => if IsIntText(t) then i == IntTextValue(t) else IntToString(i) == t
    case (Str(s), Int(j)) => if IsIntText(s) then IntTextValue(s) == j else s == IntToString(j)
    case (Str(s), Str(t)) =>
      if IsIntText(s) && IsIntText(t) then IntTextValue(s) == IntTextValue(t) else s == t
  }

  /** PHP 8 loose `$a < $n` for an integer right-hand side. */
  predicate LooseLessThanInt(a: Value, n: int)
  {
    match a
    case Null => n != 0
    case Bool(x) => !x && n != 0
    case Int(i) => i < n
    case Str(s) => if IsIntText(s) then IntTextValue(s) < n else TextLess(s, IntToString(n))
  }

  /** An integer and its string form are loosely equal, in either order. */
  lemma LooseEqIntText(i: int)
    ensures LooseEq(Int(i), Str(IntToString(i)))
    ensures LooseEq(Str(IntToString(i)), Int(i))
  {
    IntToStringIsIntText(i);
  }
}
