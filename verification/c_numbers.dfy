/** Decimal numbers as the C library prints and reads them. */
module CNumbers {

  datatype Option<+T> = None | Some(value: T)

  const INT_MAX := 0x7FFF_FFFF
  const LONG_MAX := 0x7FFF_FFFF_FFFF_FFFF
  const ULONG_MAX := 0xFFFF_FFFF_FFFF_FFFF

  predicate IsDigit(c: char) {
    '0' <= c <= '9'
  }

  predicate IsSpace(c: char) {
    c == ' ' || 9 <= c as int <= 13
  }

  function DigitOf(n: nat): (c: char)
    requires n < 10
    ensures IsDigit(c) && c as int - '0' as int == n
  {
    (n + '0' as int) as char
  }

  predicate IsSign(c: char) {
    c == '+' || c == '-'
  }

  predicate AllDigits(s: string) {
    forall k :: 0 <= k < |s| ==> IsDigit(s[k])
  }

  /** What printf("%d") writes for a number that is not negative. */
  function Decimal(n: nat): (s: string)
    ensures |s| > 0 && AllDigits(s)
  {
    if n < 10 then [DigitOf(n)] else Decimal(n / 10) + [DigitOf(n % 10)]
  }

  function ValueOf(digits: string): nat
    requires AllDigits(digits)
  {
    if digits == [] then 0
    else 10 * ValueOf(digits[..|digits| - 1]) + (digits[|digits| - 1] as int - '0' as int)
  }

  function LeadingDigits(s: string): (d: string)
    ensures AllDigits(d) && d <= s && (|d| < |s| ==> !IsDigit(s[|d|]))
  {
    if s == [] || !IsDigit(s[0]) then [] else [s[0]] + LeadingDigits(s[1..])
  }

  function SkipSpace(s: string): (r: string)
    ensures r == [] || !IsSpace(r[0])
  {
    if s != [] && IsSpace(s[0]) then SkipSpace(s[1..]) else s
  }

  /** The number at the start of a string, if there is one, and the text behind it. */
  datatype Scan = NoNumber | Number(value: int, rest: string)

  function ScanNumber(s: string): Scan {
    var t := SkipSpace(s);
    var signed := t != [] && IsSign(t[0]);
    var body := if signed then t[1..] else t;
    var digits := LeadingDigits(body);
    if digits == [] then NoNumber
    else
      var magnitude: int := ValueOf(digits);
      Number(if signed && t[0] == '-' then -magnitude else magnitude, body[|digits|..])
  }

  /** strtol in base 10: the value is clamped to the range of long, and no number reads as 0. */
  datatype Strtol = Strtol(value: int, rest: string, outOfRange: bool)

  function ReadLong(s: string): Strtol {
    match ScanNumber(s)
    case NoNumber => Strtol(0, s, false)
    case Number(v, rest) =>
      if v > LONG_MAX then Strtol(LONG_MAX, rest, true)
      else if v < -LONG_MAX - 1 then Strtol(-LONG_MAX - 1, rest, true)
      else Strtol(v, rest, false)
  }

  /** The conversion of a long to a 32-bit int. */
  function ToInt(v: int): (r: int)
    ensures -INT_MAX - 1 <= r <= INT_MAX && (-INT_MAX - 1 <= v <= INT_MAX ==> r == v)
    ensures (v - r) % 0x1_0000_0000 == 0
  {
    var u := v % 0x1_0000_0000;
    if u <= INT_MAX then u else u - 0x1_0000_0000
  }

  lemma {:induction false} ValueOfDecimal(n: nat)
    ensures ValueOf(Decimal(n)) == n
  {
    if n >= 10 {
      ValueOfDecimal(n / 10);
      var s := Decimal(n);
      assert s[..|s| - 1] == Decimal(n / 10);
    }
  }

  /** Losing digits from the end of a printed number always changes its value. */
  lemma {:induction false} TruncationShrinks(n: nat, k: nat)
    requires n > 0 && k < |Decimal(n)|
    ensures ValueOf(Decimal(n)[..k]) < n
  {
    var s := Decimal(n);
    if n >= 10 {
      assert s[..k] == Decimal(n / 10)[..k];
      if k == |Decimal(n / 10)| {
        ValueOfDecimal(n / 10);
        assert Decimal(n / 10)[..k] == Decimal(n / 10);
      } else {
        TruncationShrinks(n / 10, k);
      }
    }
  }

  function Power10(k: nat): nat {
    if k == 0 then 1 else 10 * Power10(k - 1)
  }

  lemma {:induction false} DecimalLength(n: nat, k: nat)
    requires n < Power10(k) && k > 0
    ensures |Decimal(n)| <= k
  {
    if n >= 10 {
      DecimalLength(n / 10, k - 1);
    }
  }

  lemma {:induction false} LeadingDigitsStop(digits: string, rest: string)
    requires AllDigits(digits) && (rest == [] || !IsDigit(rest[0]))
    ensures LeadingDigits(digits + rest) == digits
  {
    if digits != [] {
      assert (digits + rest)[1..] == digits[1..] + rest;
      LeadingDigitsStop(digits[1..], rest);
    }
  }

  lemma DigitIsNeitherSpaceNorSign(c: char)
    requires IsDigit(c)
    ensures !IsSpace(c) && !IsSign(c)
  {
  }

  /** Digits that stop at a non-digit read as their value. */
  lemma DigitsReadBack(digits: string, rest: string)
    requires AllDigits(digits) && digits != [] && (rest == [] || !IsDigit(rest[0]))
    ensures ScanNumber(digits + rest) == Number(ValueOf(digits), rest)
  {
    var s := digits + rest;
    assert s[0] == digits[0];
    DigitIsNeitherSpaceNorSign(s[0]);
    assert SkipSpace(s) == s;
    LeadingDigitsStop(digits, rest);
    assert s[|digits|..] == rest;
  }
}
