/** Decimal text of integers: the formatting .NET applies to an int in string
    interpolation, and the parsing Convert.ToInt32 applies to a string. */
module Decimal {
  import opened Results

  const Int32Min: int := -0x8000_0000
  const Int32Max: int := 0x7fff_ffff

  predicate IsDigit(c: char)
  {
    '0' <= c <= '9'
  }

  predicate AllDigits(s: string)
  {
    forall i :: 0 <= i < |s| ==> IsDigit(s[i])
  }

  function DigitChar(d: int): (c: char)
    requires 0 <= d < 10
    ensures IsDigit(c)
  {
    (d + '0' as int) as char
  }

  function DigitValue(c: char): (d: int)
    requires IsDigit(c)
    ensures 0 <= d < 10 && DigitChar(d) == c
  {
    c as int - '0' as int
  }

  /** The decimal text of a natural number: digits only, no leading zero. */
  function NatToString(n: nat): (s: string)
    ensures |s| >= 1 && AllDigits(s)
    ensures s[0] == '0' ==> n == 0 && s == "0"
    decreases n
  {
    if n < 10 then [DigitChar(n)] else NatToString(n / 10) + [DigitChar(n % 10)]
  }

  /** The value of a string of decimal digits, most significant first. */
  function DigitsValue(s: string): (v: nat)
    requires AllDigits(s)
    decreases |s|
  {
    if s == [] then 0 else 10 * DigitsValue(s[..|s| - 1]) + DigitValue(s[|s| - 1])
  }

  /** Reading back the text of a number gives the number. */
  lemma {:induction false} NatToStringRoundTrip(n: nat)
    ensures DigitsValue(NatToString(n)) == n
    decreases n
  {
    var s := NatToString(n);
    if n >= 10 {
      NatToStringRoundTrip(n / 10);
      assert s[..|s| - 1] == NatToString(n / 10);
    }
  }

  /** Different numbers have different texts. */
  lemma NatToStringInjective(a: nat, b: nat)
    ensures NatToString(a) == NatToString(b) ==> a == b
  {
    NatToStringRoundTrip(a);
    NatToStringRoundTrip(b);
  }

  /** Why Convert.ToInt32 rejects a string. */
  datatype ParseError = FormatError | OverflowError

  /** Integer text: at least one decimal digit, optionally after one sign. */
  predicate WellFormed(s: string)
  {
    && |s| >= 1
    && AllDigits(s[1..])
    && (IsDigit(s[0]) || ((s[0] == '-' || s[0] == '+') && |s| >= 2))
  }

  /** The value integer text denotes: its digits, negated after a minus sign. */
  function SignedValue(s: string): int
    requires WellFormed(s)
  {
    if s[0] == '-' then 0 - DigitsValue(s[1..]) as int
    else if s[0] == '+' then DigitsValue(s[1..])
    else DigitsValue(s)
  }

  /** Convert.ToInt32 on a string: well-formed text whose value fits in 32 bits
      is accepted with that value; text of another shape is a format error, and
      well-formed text out of range an overflow. */
  function ParseInt32(s: string): (r: Result<int, ParseError>)
    ensures r.Ok? ==> WellFormed(s) && r.value == SignedValue(s)
    ensures r.Ok? ==> Int32Min <= r.value <= Int32Max
    ensures r == Err(FormatError) <==> !WellFormed(s)
    ensures r == Err(OverflowError) <==> WellFormed(s) && !(Int32Min <= SignedValue(s) <= Int32Max)
  {
    var signed := |s| > 0 && (s[0] == '-' || s[0] == '+');
    var digits := if signed then s[1..] else s;
    if |digits| == 0 || !AllDigits(digits) then Err(FormatError)
    else
      var v: int := if signed && s[0] == '-' then 0 - DigitsValue(digits) as int else DigitsValue(digits);
      if v < Int32Min || v > Int32Max then Err(OverflowError) else Ok(v)
  }

  /** A leading zero does not change the value of a digit string. */
  lemma {:induction false} LeadingZeroValue(d: string)
    requires AllDigits(d)
    ensures AllDigits("0" + d) && DigitsValue("0" + d) == DigitsValue(d)
    decreases |d|
  {
    var z := "0" + d;
    if d != [] {
      LeadingZeroValue(d[..|d| - 1]);
      assert z[..|z| - 1] == "0" + d[..|d| - 1];
      assert z[|z| - 1] == d[|d| - 1];
    }
  }

  /** Leading zeros are accepted and ignored: "007" parses as "7" does. */
  lemma ParseLeadingZero(d: string)
    requires |d| >= 1 && AllDigits(d)
    ensures ParseInt32("0" + d) == ParseInt32(d)
  {
    LeadingZeroValue(d);
    assert ("0" + d)[1..] == d;
  }

  /** A plus sign is accepted and ignored: "+7" parses as "7" does. */
  lemma ParsePlusSign(d: string)
    requires |d| >= 1 && AllDigits(d)
    ensures ParseInt32("+" + d) == ParseInt32(d)
  {
    assert ("+" + d)[1..] == d;
  }

  /** The text .NET produces for an int, as the scoring endpoint writes a scored
      label: a minus sign for negative numbers, then the digits of the
      magnitude. It is well-formed, denotes n, and begins with a minus sign
      exactly when n is negative. */
  function FormatInt32(n: int): (s: string)
    ensures WellFormed(s) && SignedValue(s) == n
    ensures s[0] == '-' <==> n < 0
  {
    if n < 0 then
      NatToStringRoundTrip(-n);
      assert ("-" + NatToString(-n))[1..] == NatToString(-n);
      "-" + NatToString(-n)
    else
      NatToStringRoundTrip(n);
      NatToString(n)
  }

  /** Parsing the text of any 32-bit integer gives that integer back. */
  lemma ParseFormatRoundTrip(n: int)
    requires Int32Min <= n <= Int32Max
    ensures ParseInt32(FormatInt32(n)) == Ok(n)
  {
  }
}
