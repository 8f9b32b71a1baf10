/**
 * The decimal text of a Unix time, as the logger writes it into a file name
 * with `fmt.Sprintf("%v", …)` and reads it back with `strconv.Atoi`.
 */
module Decimal {

  const MaxInt64: int := 0x7FFF_FFFF_FFFF_FFFF
  const MinInt64: int := -0x8000_0000_0000_0000

  function DigitChar(d: nat): char
    requires d < 10
  {
    "0123456789"[d]
  }

  predicate IsDigit(c: char)
  {
    '0' <= c <= '9'
  }

  predicate AllDigits(s: string)
  {
    forall k :: 0 <= k < |s| ==> IsDigit(s[k])
  }

  /** The decimal digits of `n`, most significant first, without leading zeros. */
  function Digits(n: nat): (s: string)
    ensures s != [] && AllDigits(s)
    ensures n >= 10 ==> s[0] != '0'
    decreases n
  {
    if n < 10 then [DigitChar(n)] else Digits(n / 10) + [DigitChar(n % 10)]
  }

  /** The number written by a string of decimal digits. */
  function DigitsValue(s: string): nat
    requires AllDigits(s)
    decreases |s|
  {
    if s == [] then 0 else DigitsValue(s[..|s| - 1]) * 10 + (s[|s| - 1] as int - '0' as int)
  }

  /** `fmt.Sprintf("%v", n)` of an integer: a minus sign for a negative number, then its digits. */
  function Itoa(n: int): (s: string)
    ensures s != [] && '.' !in s
    ensures '-' in s <==> n < 0
    ensures n >= 0 ==> AllDigits(s)
  {
    if n < 0 then "-" + Digits(-n) else Digits(n)
  }

  /** What `strconv.Atoi` hands back: the number, and whether there was no error. */
  datatype Parsed = Parsed(value: int, ok: bool)

  /**
   * `strconv.Atoi(s)`: an optional sign and at least one decimal digit. Text
   * of any other form is a syntax error with value 0; a number outside the
   * 64-bit range is a range error with the value clamped to the range.
   */
  function Atoi(s: string): (p: Parsed)
    ensures p.ok ==> MinInt64 <= p.value <= MaxInt64
    ensures s == [] ==> p == Parsed(0, false)
  {
    var signed := |s| > 0 && (s[0] == '-' || s[0] == '+');
    var body := if signed then s[1..] else s;
    if body == [] || !AllDigits(body) then Parsed(0, false)
    else
      var v: int := if s[0] == '-' then 0 - DigitsValue(body) as int else DigitsValue(body);
      if v > MaxInt64 then Parsed(MaxInt64, false)
      else if v < MinInt64 then Parsed(MinInt64, false)
      else Parsed(v, true)
  }

  lemma {:induction false} DigitsRoundTrip(n: nat)
    ensures DigitsValue(Digits(n)) == n
    decreases n
  {
    if n >= 10 {
      DigitsRoundTrip(n / 10);
      var s := Digits(n);
      assert s[..|s| - 1] == Digits(n / 10);
    }
  }

  /** Every 64-bit integer written by `Itoa` reads back as itself, without error. */
  lemma AtoiOfItoa(n: int)
    requires MinInt64 <= n <= MaxInt64
    ensures Atoi(Itoa(n)) == Parsed(n, true)
  {
    if n < 0 {
      DigitsRoundTrip(-n);
      NegativeBody(-n);
    } else {
      DigitsRoundTrip(n);
    }
  }

  /** After its minus sign, the text of a negative number is the digits of its magnitude. */
  lemma NegativeBody(m: nat)
    requires m > 0
    ensures var s := "-" + Digits(m); s[0] == '-' && s[1..] == Digits(m)
  {
  }

  /** Text with a character that is neither a digit nor a leading sign does not parse, and reads as 0. */
  lemma NotANumber(s: string, k: nat)
    requires 0 < k < |s| && !IsDigit(s[k])
    ensures Atoi(s) == Parsed(0, false)
  {
  }
}
