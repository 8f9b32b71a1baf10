/** Lowercase hexadecimal text of bytes, as Go's `hex.EncodeToString` and `%x` produce it. */
module Hex {
  import opened Wrappers

  /** Go's `byte`. */
  newtype byte = x: int | 0 <= x < 256

  predicate IsLowerHexDigit(c: char)
  {
    '0' <= c <= '9' || 'a' <= c <= 'f'
  }

  function Digit(n: int): (c: char)
    requires 0 <= n < 16
    ensures IsLowerHexDigit(c)
  {
    if n < 10 then (48 + n) as char else (87 + n) as char
  }

  function DigitValue(c: char): (n: int)
    requires IsLowerHexDigit(c)
    ensures 0 <= n < 16 && Digit(n) == c
  {
    if c <= '9' then c as int - 48 else c as int - 87
  }

  /** Two digits per byte, high nibble first. */
  function Encode(bytes: seq<byte>): (s: string)
    ensures |s| == 2 * |bytes|
  {
    if bytes == [] then "" else [Digit(bytes[0] as int / 16), Digit(bytes[0] as int % 16)] + Encode(bytes[1..])
  }

  /** The inverse of Encode, used to show that the text determines the bytes. */
  function Decode(s: string): Option<seq<byte>>
    decreases |s|
  {
    if s == [] then Some([])
    else if |s| == 1 || !IsLowerHexDigit(s[0]) || !IsLowerHexDigit(s[1]) then None
    else match Decode(s[2..])
      case None => None
      case Some(rest) => Some([(DigitValue(s[0]) * 16 + DigitValue(s[1])) as byte] + rest)
  }

  lemma DigitRoundTrip(n: int)
    requires 0 <= n < 16
    ensures DigitValue(Digit(n)) == n
  {
  }

  /** Every character of the text is a lowercase hex digit. */
  lemma {:induction false} EncodeDigits(bytes: seq<byte>)
    ensures forall i :: 0 <= i < |Encode(bytes)| ==> IsLowerHexDigit(Encode(bytes)[i])
  {
    if bytes != [] {
      EncodeDigits(bytes[1..]);
      var s := Encode(bytes);
      forall i | 0 <= i < |s|
        ensures IsLowerHexDigit(s[i])
      {
        if i >= 2 {
          assert s[i] == Encode(bytes[1..])[i - 2];
        }
      }
    }
  }

  lemma {:induction false} DecodeEncode(bytes: seq<byte>)
    ensures Decode(Encode(bytes)) == Some(bytes)
  {
    if bytes != [] {
      var s := Encode(bytes);
      var b := bytes[0] as int;
      assert s[2..] == Encode(bytes[1..]);
      DecodeEncode(bytes[1..]);
      DigitRoundTrip(b / 16);
      DigitRoundTrip(b % 16);
      assert [bytes[0]] + bytes[1..] == bytes;
    }
  }

  /** Equal hex text means equal bytes. */
  lemma EncodeInjective(a: seq<byte>, b: seq<byte>)
    requires Encode(a) == Encode(b)
    ensures a == b
  {
    DecodeEncode(a);
    DecodeEncode(b);
  }

  /** Where the digits of byte k stand in the text. */
  lemma {:induction false} EncodeAt(bytes: seq<byte>, k: nat)
    requires k < |bytes|
    ensures Encode(bytes)[2 * k] == Digit(bytes[k] as int / 16)
    ensures Encode(bytes)[2 * k + 1] == Digit(bytes[k] as int % 16)
  {
    if k > 0 {
      EncodeAt(bytes[1..], k - 1);
    }
  }
}
