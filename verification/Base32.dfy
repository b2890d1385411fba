/** base32_decode of totp.c: five-bit digits regrouped into bytes through a
    32-bit accumulator that is allowed to overflow. */
module Base32 {
  import opened Basics
  import opened Arithmetic

  /** The decode table, through the case folding in front of it. It is one letter
      off: 'A' is refused and 'B' is 0; '2' to '7' are 26 to 31. */
  function DigitOf(c: char): Option<nat> {
    var u := if 'a' <= c <= 'z' then (c as int - 32) as char else c;
    if 'B' <= u <= 'Z' then Some(u as int - 'B' as int)
    else if '2' <= u <= '7' then Some(26 + (u as int - '2' as int))
    else None
  }

  /** Table 3 in section 6 of RFC 4648. */
  function RfcDigit(c: char): Option<nat> {
    if 'A' <= c <= 'Z' then Some(c as int - 'A' as int)
    else if '2' <= c <= '7' then Some(c as int - '2' as int + 26)
    else None
  }

  /** How far the decode table is off: letters of either case count one less than they
      should, the first one not at all, and the digits are right. */
  lemma TableIsOff(c: char)
    ensures var u := if 'a' <= c <= 'z' then (c as int - 32) as char else c;
      DigitOf(c) == match RfcDigit(u)
                    case None => None
                    case Some(d) => if d == 0 then None else if d < 26 then Some(d - 1) else Some(d)
  {
  }

  predicate Ignored(c: char) { c in {'=', ' ', '\t', '\n', '\r'} }

  predicate Acceptable(s: string) {
    forall i :: 0 <= i < |s| ==> DigitOf(s[i]).Some? || Ignored(s[i])
  }

  /** Which characters an accepted input is made of. */
  lemma AcceptableIff(s: string)
    ensures Acceptable(s)
       <==> forall i :: 0 <= i < |s| ==>
              || 'B' <= s[i] <= 'Z' || 'b' <= s[i] <= 'z' || '2' <= s[i] <= '7'
              || s[i] == '=' || s[i] == ' ' || s[i] == '\t' || s[i] == '\n' || s[i] == '\r'
  {
  }

  /** The digits of the input, padding and white space left out. */
  function DigitsOf(s: string): (ds: seq<nat>)
    ensures forall i :: 0 <= i < |ds| ==> ds[i] < 32
  {
    if s == [] then []
    else
      var d := DigitOf(s[|s| - 1]);
      DigitsOf(s[..|s| - 1]) + (if d.Some? then [d.value] else [])
  }

  /** The number written by a sequence of digits, most significant first. */
  function Number(ds: seq<nat>, base: nat): nat {
    if ds == [] then 0 else Number(ds[..|ds| - 1], base) * base + ds[|ds| - 1]
  }

  /** Two digit strings of the same length that write the same number are equal:
      length and number together determine the output of `Decode`. */
  lemma {:induction false} NumberDetermines(a: seq<nat>, b: seq<nat>, base: nat)
    requires |a| == |b| && Number(a, base) == Number(b, base)
    requires forall i :: 0 <= i < |a| ==> a[i] < base && b[i] < base
    ensures a == b
    decreases |a|
  {
    if a != [] {
      var n := |a| - 1;
      DivUnique(Number(a, base), base, Number(a[..n], base), a[n]);
      DivUnique(Number(b, base), base, Number(b[..n], base), b[n]);
      NumberDetermines(a[..n], b[..n], base);
      assert a == a[..n] + [a[n]] && b == b[..n] + [b[n]];
    }
  }

  lemma {:induction false} DigitsOfPrefix(s: string, i: nat)
    requires i <= |s|
    ensures |DigitsOf(s[..i])| <= |DigitsOf(s)|
    decreases |s|
  {
    if i < |s| {
      assert s[..|s| - 1][..i] == s[..i];
      DigitsOfPrefix(s[..|s| - 1], i);
    } else {
      assert s[..i] == s;
    }
  }

  /** Appending a digit does not change the part already above the pending bits. */
  lemma Carry(n: nat, d: nat, p: nat)
    requires d < 32 && p > 0
    ensures (32 * n + d) / (32 * p) == n / p
  {
    var q, r := n / p, n % p;
    assert 32 * n + d == q * (32 * p) + (32 * r + d);
    DivUnique(32 * n + d, 32 * p, q, 32 * r + d);
  }

  /** A digit that completes a byte: the C expression takes the right eight bits. */
  lemma Emit(n: nat, d: nat, bits: nat)
    requires d < 32 && 3 <= bits <= 7
    ensures n / Pow2(bits) * 256 + Wrap32(32 * n + d) / Pow2(bits - 3) % 256 == (32 * n + d) / Pow2(bits - 3)
  {
    var p := Pow2(bits - 3);
    assert Pow2(bits - 1) == 4 * p && Pow2(bits) == 8 * p;
    Carry(n, d, 8 * p);
    QuotientAndByte(32 * n + d, p);
    ByteOfWrapped(32 * n + d, bits - 3);
  }

  lemma Hold(n: nat, d: nat, bits: nat)
    requires d < 32
    ensures (32 * n + d) / Pow2(bits + 5) == n / Pow2(bits)
  {
    assert Pow2(bits + 2) == 4 * Pow2(bits) && Pow2(bits + 4) == 4 * Pow2(bits + 2);
    assert Pow2(bits + 5) == 32 * Pow2(bits);
    Carry(n, d, Pow2(bits));
  }

  /** The decoder's variables after the digits `ds`: the accumulator is their
      number modulo 2^32, and the output is the number without its pending bits. */
  ghost predicate Regrouped(ds: seq<nat>, value: uint32, bits: nat, out: seq<nat>) {
    && value == Wrap32(Number(ds, 32))
    && bits == 5 * |ds| % 8 && |out| == 5 * |ds| / 8
    && Number(out, 256) == Number(ds, 32) / Pow2(bits)
  }

  lemma NumberAppend(ds: seq<nat>, d: nat, base: nat)
    ensures Number(ds + [d], base) == Number(ds, base) * base + d
  {
    assert (ds + [d])[..|ds|] == ds;
  }

  lemma PendingBits(n: nat, bits: nat)
    requires bits == 5 * n % 8
    ensures if bits < 3 then 5 * (n + 1) % 8 == bits + 5 && 5 * (n + 1) / 8 == 5 * n / 8
            else 5 * (n + 1) % 8 == bits - 3 && 5 * (n + 1) / 8 == 5 * n / 8 + 1
  {
    assert 5 * n == 8 * (5 * n / 8) + bits;
  }

  /** The variables once a digit has been shifted in, and its byte, if any, put out. */
  ghost predicate Advanced(ds: seq<nat>, value: uint32, bits: nat, out: seq<nat>) {
    if bits >= 8 then
      |out| + 1 == 5 * |ds| / 8 && Regrouped(ds, value, bits - 8, out + [value / Pow2(bits - 8) % 256])
    else
      Regrouped(ds, value, bits, out)
  }

  lemma DigitAdvances(ds: seq<nat>, value: uint32, bits: nat, out: seq<nat>, d: nat)
    requires Regrouped(ds, value, bits, out) && d < 32
    ensures var value' := Wrap32(value * 32) + d;
      value' <= UINT32_MAX && Advanced(ds + [d], value', bits + 5, out)
  {
    var n := Number(ds, 32);
    ShiftIn(n, d);
    PendingBits(|ds|, bits);
    NumberAppend(ds, d, 32);
    if bits >= 3 {
      Emit(n, d, bits);
      NumberAppend(out, Wrap32(32 * n + d) / Pow2(bits - 3) % 256, 256);
    } else {
      Hold(n, d, bits);
    }
  }

  lemma NextCharacter(s: string, i: nat)
    requires i < |s|
    ensures var d := DigitOf(s[i]);
      && DigitsOf(s[..i + 1]) == DigitsOf(s[..i]) + (if d.Some? then [d.value] else [])
      && 5 * |DigitsOf(s[..i + 1])| / 8 <= 5 * |DigitsOf(s)| / 8
      && (Acceptable(s[..i + 1]) <==> Acceptable(s[..i]) && (d.Some? || Ignored(s[i])))
      && (Acceptable(s) ==> d.Some? || Ignored(s[i]))
  {
    assert s[..i + 1][..i] == s[..i];
    DigitsOfPrefix(s, i + 1);
    assert forall j :: 0 <= j < i ==> s[..i + 1][j] == s[..i][j];
  }

  /** One digit shifted in, and its byte put out when eight bits are there. */
  method Absorb(output: array<byte>, length: nat, value: uint32, bits: nat, digit: nat, ghost ds: seq<nat>)
    returns (success: bool, length': nat, value': uint32, bits': nat)
    requires length <= output.Length && bits < 8 && digit < 32
    requires Regrouped(ds, value, bits, output[..length])
    modifies output
    ensures success <==> 5 * (|ds| + 1) / 8 <= output.Length
    ensures success ==> length' <= output.Length && bits' < 8
                        && Regrouped(ds + [digit], value', bits', output[..length'])
  {
    DigitAdvances(ds, value, bits, output[..length], digit);
    value' := Wrap32(value * 32) + digit;
    bits', length' := bits + 5, length;
    if bits' >= 8 {
      if length >= output.Length {
        return false, length, value', bits';
      }
      ghost var before := output[..length];
      output[length] := value' / Pow2(bits' - 8) % 256;
      assert output[..length + 1] == before + [output[length]];
      bits', length' := bits' - 8, length + 1;
    }
    return true, length', value', bits';
  }

  /** The input is accepted exactly when every character is a digit, padding or
      white space and the bytes fit. The output, read in base 256, is then the
      number the digits write in base 32, without its last 5n mod 8 bits. */
  method Decode(input: string, output: array<byte>) returns (success: bool, length: nat)
    modifies output
    ensures success <==> Acceptable(input) && 5 * |DigitsOf(input)| / 8 <= output.Length
    ensures success ==> length == 5 * |DigitsOf(input)| / 8 <= output.Length
    ensures success ==>
      Number(output[..length], 256) == Number(DigitsOf(input), 32) / Pow2(5 * |DigitsOf(input)| % 8)
  {
    var bits: nat, value: uint32, i := 0, 0, 0;
    length := 0;
    ghost var ds: seq<nat> := [];
    while i < |input|
      invariant 0 <= i <= |input| && Acceptable(input[..i]) && ds == DigitsOf(input[..i])
      invariant length <= output.Length && bits < 8
      invariant Regrouped(ds, value, bits, output[..length])
    {
      var c := input[i];
      NextCharacter(input, i);
      i := i + 1;
      var digit := DigitOf(c);
      if digit.None? {
        if Ignored(c) {
          continue;
        }
        return false, 0;
      }
      var room: bool;
      room, length, value, bits := Absorb(output, length, value, bits, digit.value, ds);
      if !room {
        return false, 0;
      }
      ds := ds + [digit.value];
    }
    assert input[..i] == input;
    return true, length;
  }
}
