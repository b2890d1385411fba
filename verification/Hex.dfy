/** hex_encode, hex_value and hex_decode of crypto_engine.c. */
module Hex {
  import opened Basics

  const HEX_DIGITS := "0123456789abcdef"

  /** -1 for a character that is not a hexadecimal digit. */
  function HexValue(c: char): (v: int)
    ensures -1 <= v < 16
  {
    if '0' <= c <= '9' then c as int - '0' as int
    else if 'a' <= c <= 'f' then c as int - 'a' as int + 10
    else if 'A' <= c <= 'F' then c as int - 'A' as int + 10
    else -1
  }

  function Digit(n: nat): char
    requires n < 16
  {
    HEX_DIGITS[n]
  }

  /** The `k`-th digit of a byte string, the high one of each byte first. */
  function DigitAt(bs: seq<byte>, k: nat): char
    requires k < 2 * |bs|
  {
    Digit(if k % 2 == 0 then bs[k / 2] / 16 else bs[k / 2] % 16)
  }

  function Encode(bs: seq<byte>): (s: string)
    ensures |s| == 2 * |bs|
  {
    seq(2 * |bs|, k requires 0 <= k < 2 * |bs| => DigitAt(bs, k))
  }

  predicate AllHex(s: string) { forall k :: 0 <= k < |s| ==> HexValue(s[k]) >= 0 }

  predicate IsHex(s: string) { |s| % 2 == 0 && AllHex(s) }

  function ByteAt(s: string, i: nat): byte
    requires 2 * i + 1 < |s| && HexValue(s[2 * i]) >= 0 && HexValue(s[2 * i + 1]) >= 0
  {
    HexValue(s[2 * i]) * 16 + HexValue(s[2 * i + 1])
  }

  function Decode(s: string): (bs: seq<byte>)
    requires IsHex(s)
    ensures |bs| == |s| / 2
  {
    seq(|s| / 2, i requires 0 <= i < |s| / 2 => ByteAt(s, i))
  }

  function LowerChar(c: char): char { if 'A' <= c <= 'F' then (c as int + 32) as char else c }

  function Lower(s: string): string { seq(|s|, i requires 0 <= i < |s| => LowerChar(s[i])) }

  lemma DigitInverse(n: nat)
    requires n < 16
    ensures HexValue(Digit(n)) == n && Digit(n) !in {':', '\0'} && Digit(n) as int < 128
  {
  }

  lemma DigitOfValue(c: char)
    requires HexValue(c) >= 0
    ensures Digit(HexValue(c)) == LowerChar(c)
  {
  }

  /** Encoded text is hexadecimal, plain ASCII, and holds neither a separator nor a NUL. */
  lemma EncodeIsPlain(bs: seq<byte>)
    ensures IsHex(Encode(bs))
    ensures forall k :: 0 <= k < |Encode(bs)| ==> Encode(bs)[k] !in {':', '\0'} && Encode(bs)[k] as int < 128
  {
    forall k | 0 <= k < |Encode(bs)|
      ensures HexValue(Encode(bs)[k]) >= 0 && Encode(bs)[k] !in {':', '\0'} && Encode(bs)[k] as int < 128
    {
      DigitInverse(if k % 2 == 0 then bs[k / 2] / 16 else bs[k / 2] % 16);
    }
  }

  lemma EncodeAt(bs: seq<byte>, i: nat)
    requires i < |bs|
    ensures Encode(bs)[2 * i] == Digit(bs[i] / 16) && Encode(bs)[2 * i + 1] == Digit(bs[i] % 16)
  {
    assert DigitAt(bs, 2 * i) == Digit(bs[i] / 16) && DigitAt(bs, 2 * i + 1) == Digit(bs[i] % 16);
  }

  /** Each byte is written as a two-digit number in base sixteen, in order. */
  lemma EncodeIsPositional(bs: seq<byte>, i: nat)
    requires i < |bs|
    ensures HexValue(Encode(bs)[2 * i]) * 16 + HexValue(Encode(bs)[2 * i + 1]) == bs[i]
  {
    EncodeAt(bs, i);
    DigitInverse(bs[i] / 16);
    DigitInverse(bs[i] % 16);
  }

  /** Decoding gives the encoded bytes back. */
  lemma DecodeEncode(bs: seq<byte>)
    ensures IsHex(Encode(bs)) && Decode(Encode(bs)) == bs
  {
    EncodeIsPlain(bs);
    forall i | 0 <= i < |bs|
      ensures ByteAt(Encode(bs), i) == bs[i]
    {
      EncodeAt(bs, i);
      DigitInverse(bs[i] / 16);
      DigitInverse(bs[i] % 16);
    }
  }

  lemma NibblesOf(h: nat, l: nat)
    requires h < 16 && l < 16
    ensures (h * 16 + l) / 16 == h && (h * 16 + l) % 16 == l
  {
  }

  lemma EncodedNibbles(bs: seq<byte>, i: nat, h: nat, l: nat)
    requires i < |bs| && h < 16 && l < 16 && bs[i] == h * 16 + l
    ensures Encode(bs)[2 * i] == Digit(h) && Encode(bs)[2 * i + 1] == Digit(l)
  {
    EncodeAt(bs, i);
    NibblesOf(h, l);
  }

  lemma DecodedDigit(s: string, bs: seq<byte>, i: nat, k: nat)
    requires i < |bs| && |s| == 2 * |bs| && AllHex(s) && bs[i] == ByteAt(s, i)
    requires k == 2 * i || k == 2 * i + 1
    ensures Encode(bs)[k] == Digit(HexValue(s[k]))
  {
    EncodedNibbles(bs, i, HexValue(s[2 * i]), HexValue(s[2 * i + 1]));
  }

  /** Decoded text encodes to itself in lower case: nothing but case is lost. */
  lemma EncodeDecode(s: string)
    requires IsHex(s)
    ensures Encode(Decode(s)) == Lower(s)
  {
    forall k | 0 <= k < |s|
      ensures Encode(Decode(s))[k] == LowerChar(s[k])
    {
      DecodedDigit(s, Decode(s), k / 2, k);
      DigitOfValue(s[k]);
    }
  }

  method EncodeInto(input: seq<byte>, output: array<char>) returns (success: bool)
    modifies output
    ensures success <==> 2 * |input| + 1 <= output.Length
    ensures success ==> output[..2 * |input|] == Encode(input) && output[2 * |input|] == '\0'
    ensures !success ==> output[..] == old(output[..])
  {
    if 2 * |input| + 1 > output.Length {
      return false;
    }
    var i := 0;
    while i < |input|
      invariant 0 <= i <= |input|
      invariant forall k :: 0 <= k < 2 * i ==> output[k] == DigitAt(input, k)
    {
      output[2 * i] := Digit(input[i] / 16);
      output[2 * i + 1] := Digit(input[i] % 16);
      i := i + 1;
    }
    output[2 * |input|] := '\0';
    return true;
  }

  method DecodeInto(input: string, output: array<byte>) returns (success: bool, length: nat)
    modifies output
    ensures success <==> IsHex(input) && |input| / 2 <= output.Length
    ensures success ==> length == |input| / 2 && output[..length] == Decode(input)
  {
    if |input| % 2 != 0 || |input| / 2 > output.Length {
      return false, 0;
    }
    var i := 0;
    while i < |input|
      invariant 0 <= i <= |input| && i % 2 == 0
      invariant forall k :: 0 <= k < i ==> HexValue(input[k]) >= 0
      invariant forall j :: 0 <= j < i / 2 ==> output[j] == ByteAt(input, j)
    {
      var hi, lo := HexValue(input[i]), HexValue(input[i + 1]);
      if hi < 0 || lo < 0 {
        return false, 0;
      }
      output[i / 2] := hi * 16 + lo;
      i := i + 2;
    }
    return true, |input| / 2;
  }
}
