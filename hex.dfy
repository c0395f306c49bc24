/** Bytes and the lowercase hexadecimal text that `Buffer.toString('hex')`
    produces from them: two characters per byte, high nibble first. */
module Hex {
  import opened Outcomes

  type Byte = x: int | 0 <= x < 256

  const HEX_DIGITS: string := "0123456789abcdef"

  /** The characters `Buffer.toString('hex')` can produce. */
  predicate IsHexDigit(c: char) {
    ('0' <= c <= '9') || ('a' <= c <= 'f')
  }

  predicate IsHexString(s: string) {
    forall i :: 0 <= i < |s| ==> IsHexDigit(s[i])
  }

  function DigitChar(d: int): (c: char)
    requires 0 <= d < 16
    ensures IsHexDigit(c)
  {
    HEX_DIGITS[d]
  }

  function DigitValue(c: char): (d: int)
    requires IsHexDigit(c)
    ensures 0 <= d < 16
  {
    if '0' <= c <= '9' then c as int - '0' as int else c as int - 'a' as int + 10
  }

  lemma DigitValueOfChar(d: int)
    requires 0 <= d < 16
    ensures DigitValue(DigitChar(d)) == d
  {
  }

  lemma CharOfDigitValue(c: char)
    requires IsHexDigit(c)
    ensures DigitChar(DigitValue(c)) == c
  {
  }

  lemma Nibbles(high: int, low: int)
    requires 0 <= high < 16 && 0 <= low < 16
    ensures (high * 16 + low) / 16 == high && (high * 16 + low) % 16 == low
  {
  }

  /** `Buffer.toString('hex')`. */
  function Encode(bytes: seq<Byte>): (s: string)
    ensures |s| == 2 * |bytes|
    ensures IsHexString(s)
  {
    if |bytes| == 0 then []
    else [DigitChar(bytes[0] / 16), DigitChar(bytes[0] % 16)] + Encode(bytes[1..])
  }

  /** The inverse of `Encode`: `None` for text that is not an even number of
      lowercase hex digits. */
  function Decode(s: string): (r: Option<seq<Byte>>)
    decreases |s|
  {
    if |s| == 0 then Some([])
    else if |s| == 1 || !IsHexDigit(s[0]) || !IsHexDigit(s[1]) then None
    else
      match Decode(s[2..])
      case None => None
      case Some(rest) => Some([DigitValue(s[0]) * 16 + DigitValue(s[1])] + rest)
  }

  /** Decoding undoes encoding. */
  lemma {:induction false} DecodeEncode(bytes: seq<Byte>)
    ensures Decode(Encode(bytes)) == Some(bytes)
  {
    if |bytes| > 0 {
      var s := Encode(bytes);
      assert s[2..] == Encode(bytes[1..]);
      DecodeEncode(bytes[1..]);
      DigitValueOfChar(bytes[0] / 16);
      DigitValueOfChar(bytes[0] % 16);
      assert [bytes[0]] + bytes[1..] == bytes;
    }
  }

  lemma DecodeStep(s: string)
    requires |s| > 0 && Decode(s).Some?
    ensures |s| >= 2 && IsHexDigit(s[0]) && IsHexDigit(s[1]) && Decode(s[2..]).Some?
    ensures Decode(s).value == [DigitValue(s[0]) * 16 + DigitValue(s[1])] + Decode(s[2..]).value
  {
  }

  lemma EncodeCons(b: Byte, rest: seq<Byte>)
    ensures Encode([b] + rest) == [DigitChar(b / 16), DigitChar(b % 16)] + Encode(rest)
  {
    assert ([b] + rest)[1..] == rest;
  }

  /** Encoding undoes decoding: text `Decode` accepts is exactly what
      `Encode` produces. */
  lemma {:induction false} EncodeDecode(s: string)
    requires Decode(s).Some?
    ensures Encode(Decode(s).value) == s
  {
    if |s| > 0 {
      DecodeStep(s);
      EncodeDecode(s[2..]);
      var high, low := DigitValue(s[0]), DigitValue(s[1]);
      Nibbles(high, low);
      CharOfDigitValue(s[0]);
      CharOfDigitValue(s[1]);
      EncodeCons(high * 16 + low, Decode(s[2..]).value);
      assert s == [s[0], s[1]] + s[2..];
    }
  }

  /** Distinct byte strings have distinct hex text. */
  lemma EncodeInjective(a: seq<Byte>, b: seq<Byte>)
    ensures Encode(a) == Encode(b) <==> a == b
  {
    if Encode(a) == Encode(b) {
      DecodeEncode(a);
      DecodeEncode(b);
    }
  }
}
