/** Node's `buf.toString("hex")` and `Buffer.from(s, "hex")`. */
module Hex {

  type Byte = x: int | 0 <= x < 256

  const Digits := "0123456789abcdef"

  predicate IsHexDigit(c: char) {
    ('0' <= c <= '9') || ('a' <= c <= 'f') || ('A' <= c <= 'F')
  }

  function DigitValue(c: char): (v: nat)
    requires IsHexDigit(c)
    ensures v < 16
  {
    if '0' <= c <= '9' then (c as int) - ('0' as int)
    else if 'a' <= c <= 'f' then (c as int) - ('a' as int) + 10
    else (c as int) - ('A' as int) + 10
  }

  /** Lower-case hex, two digits per byte, high nibble first. */
  function Encode(bytes: seq<Byte>): (r: string)
    ensures |r| == 2 * |bytes|
    ensures forall i :: 0 <= i < |r| ==> r[i] in Digits
    ensures ':' !in r
  {
    if bytes == [] then ""
    else [Digits[bytes[0] / 16], Digits[bytes[0] % 16]] + Encode(bytes[1..])
  }

  /** `Buffer.from(s, "hex")` is lenient: it decodes digit pairs from the
      front and stops at the first pair that is not two hex digits, so an odd
      trailing digit or any other character truncates the result. */
  function Decode(s: string): (r: seq<Byte>)
    decreases |s|
  {
    if |s| < 2 || !IsHexDigit(s[0]) || !IsHexDigit(s[1]) then []
    else [PairValue(s[0], s[1])] + Decode(s[2..])
  }

  /** The byte written as the two hex digits `hi` and `lo`. */
  function PairValue(hi: char, lo: char): Byte
    requires IsHexDigit(hi) && IsHexDigit(lo)
  {
    DigitValue(hi) * 16 + DigitValue(lo)
  }

  lemma DigitRoundTrip(n: nat)
    requires n < 16
    ensures IsHexDigit(Digits[n]) && DigitValue(Digits[n]) == n
  {
  }

  lemma ByteRoundTrip(b: Byte)
    ensures IsHexDigit(Digits[b / 16]) && IsHexDigit(Digits[b % 16])
    ensures PairValue(Digits[b / 16], Digits[b % 16]) == b
  {
    var h, l := b / 16, b % 16;
    DigitRoundTrip(h);
    DigitRoundTrip(l);
    assert h * 16 + l == b;
  }

  /** Decoding what was encoded gives back the bytes. */
  lemma {:induction false} DecodeEncode(bytes: seq<Byte>)
    ensures Decode(Encode(bytes)) == bytes
  {
    if bytes != [] {
      var b := bytes[0];
      var e := Encode(bytes);
      var hi, lo := Digits[b / 16], Digits[b % 16];
      ByteRoundTrip(b);
      assert e == [hi, lo] + Encode(bytes[1..]);
      assert e[0] == hi && e[1] == lo;
      assert e[2..] == Encode(bytes[1..]);
      assert Decode(e) == [PairValue(hi, lo)] + Decode(e[2..]);
      DecodeEncode(bytes[1..]);
      assert [b] + bytes[1..] == bytes;
    }
  }
}
