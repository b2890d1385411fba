/** The `v1:` password envelope of crypto_engine.c over the simulated AEAD of
    atecc608a_driver.c: a repeating-key mask and a tag over associated data,
    ciphertext and key. The hash is any function; the tag is its first 16 bytes. */
module Envelope {
  import opened Basics
  import opened CStrings
  import opened Hex

  const PASSWORD_MAX_LENGTH: nat := 64
  const TAG_SIZE: nat := 16

  type Aad = s: seq<byte> | |s| == 12 witness [0, 0, 0, 0, 0, 0, 0, 0, 0, 0, 0, 0]
  type Tag = s: seq<byte> | |s| == 16 witness [0, 0, 0, 0, 0, 0, 0, 0, 0, 0, 0, 0, 0, 0, 0, 0]
  type Key = s: seq<byte> | |s| == 32
    witness [0, 0, 0, 0, 0, 0, 0, 0, 0, 0, 0, 0, 0, 0, 0, 0, 0, 0, 0, 0, 0, 0, 0, 0, 0, 0, 0, 0, 0, 0, 0, 0]

  /** Each byte masked with the key, which repeats every 32 bytes. */
  function Masked(bs: seq<byte>, key: Key): seq<byte> {
    seq(|bs|, i requires 0 <= i < |bs| => Xor(bs[i], key[i % 32]))
  }

  function TagOf(hash: seq<byte> -> Tag, aad: seq<byte>, ciphertext: seq<byte>, key: Key): Tag {
    hash(aad + ciphertext + key)
  }

  /** The bytes of a C string, and the C string that starts a buffer of bytes. */
  function BytesOf(s: string): seq<byte> { seq(|s|, i requires 0 <= i < |s| => s[i] as int % 256) }

  function TextOf(bs: seq<byte>): string {
    if bs == [] || bs[0] == 0 then "" else [bs[0] as char] + TextOf(bs[1..])
  }

  function Join(a: string, t: string, r: string): string { "v1:" + a + ":" + t + ":" + r }

  function Format(aad: Aad, tag: Tag, ciphertext: seq<byte>): string {
    Join(Encode(aad), Encode(tag), Encode(ciphertext))
  }

  /** The AEAD wants room for a tag behind the ciphertext, although it writes none there. */
  predicate Encryptable(plaintext: string, outLen: nat) {
    && 0 < |plaintext| <= PASSWORD_MAX_LENGTH - TAG_SIZE
    && 64 + 2 * |plaintext| <= outLen
  }

  function EncryptPassword(key: Key, hash: seq<byte> -> Tag, aad: Aad, plaintext: string, outLen: nat): Option<string> {
    if !Encryptable(plaintext, outLen) then None
    else
      var ciphertext := Masked(BytesOf(plaintext), key);
      Some(Format(aad, TagOf(hash, aad, ciphertext, key), ciphertext))
  }

  datatype Parts = Parts(aad: Aad, tag: Tag, ciphertext: seq<byte>)

  /** The three fields behind the version mark, cut at the first two separators. */
  function Split(envelope: string): Option<(string, string, string)> {
    if !("v1:" <= envelope) then None
    else
      var sep1 := IndexOf(envelope, ':', 3);
      if sep1 == |envelope| then None
      else
        var sep2 := IndexOf(envelope, ':', sep1 + 1);
        if sep2 == |envelope| then None
        else Some((envelope[3..sep1], envelope[sep1 + 1..sep2], envelope[sep2 + 1..]))
  }

  predicate Decodable(a: string, t: string, r: string) {
    && |a| == 24 && |t| == 32 && 0 < |r| <= 2 * PASSWORD_MAX_LENGTH
    && IsHex(a) && IsHex(t) && IsHex(r)
  }

  function Parse(envelope: string): Option<Parts> {
    var fields := Split(envelope);
    if fields.None? then None
    else
      var (a, t, r) := fields.value;
      if Decodable(a, t, r) then Some(Parts(Decode(a), Decode(t), Decode(r))) else None
  }

  function DecryptPassword(key: Key, hash: seq<byte> -> Tag, envelope: string, outLen: nat): Option<string> {
    var parts := Parse(envelope);
    if outLen < 2 || parts.None? then None
    else
      var p := parts.value;
      if outLen - 1 < |p.ciphertext| || TagOf(hash, p.aad, p.ciphertext, key) != p.tag then None
      else Some(TextOf(Masked(p.ciphertext, key)))
  }

  // ---- laws ---------------------------------------------------------------------

  lemma MaskedTwice(bs: seq<byte>, key: Key)
    ensures Masked(Masked(bs, key), key) == bs
  {
    forall i | 0 <= i < |bs|
      ensures Masked(Masked(bs, key), key)[i] == bs[i]
    {
      XorCancels(bs[i], key[i % 32]);
    }
  }

  lemma XorRecovers(b: byte, k: byte)
    ensures Xor(Xor(b, k), b) == k
    ensures Xor(b, k) == b <==> k == 0
  {
    XorAlgebra(b, k, b);
    XorCancels(k, b);
    XorZeroRight(b);
    XorAlgebra(b, 0, b);
    XorCancels(0, b);
  }

  /** The mask is the key: it is what a masked byte and its plain one differ by, at every
      place. So a byte is left in clear exactly where the key byte is zero. */
  lemma MaskIsKey(bs: seq<byte>, key: Key, i: nat)
    requires i < |bs|
    ensures |Masked(bs, key)| == |bs| && Xor(Masked(bs, key)[i], bs[i]) == key[i % 32]
    ensures Masked(bs, key)[i] == bs[i] <==> key[i % 32] == 0
  {
    XorRecovers(bs[i], key[i % 32]);
  }

  /** One text under two keys looks the same exactly if the keys agree on the bytes used. */
  lemma MaskDeterminesKey(bs: seq<byte>, key: Key, key': Key)
    ensures Masked(bs, key) == Masked(bs, key') <==> forall i :: 0 <= i < |bs| ==> key[i % 32] == key'[i % 32]
  {
    if Masked(bs, key) == Masked(bs, key') {
      forall i | 0 <= i < |bs|
        ensures key[i % 32] == key'[i % 32]
      {
        MaskIsKey(bs, key, i);
        MaskIsKey(bs, key', i);
      }
    }
  }

  lemma {:induction false} TextOfBytes(s: string)
    requires CText(s)
    ensures TextOf(BytesOf(s)) == s
    decreases |s|
  {
    if s != "" {
      assert BytesOf(s)[1..] == BytesOf(s[1..]);
      TextOfBytes(s[1..]);
      assert s == [s[0]] + s[1..];
    }
  }

  /** Splitting at the separators undoes joining ... */
  lemma SplitJoin(a: string, t: string, r: string)
    requires ':' !in a && ':' !in t
    ensures Split(Join(a, t, r)) == Some((a, t, r))
  {
    var e, sep1, sep2 := Join(a, t, r), 3 + |a|, 4 + |a| + |t|;
    assert e[3..sep1] == a && e[sep1 + 1..sep2] == t && e[sep2 + 1..] == r;
    assert forall i :: 3 <= i < sep1 ==> e[i] == a[i - 3];
    assert forall i :: sep1 < i < sep2 ==> e[i] == t[i - (sep1 + 1)];
    IndexOfIs(e, ':', 3, sep1);
    IndexOfIs(e, ':', sep1 + 1, sep2);
  }

  /** ... and joining undoes splitting. */
  lemma JoinSplit(envelope: string)
    requires Split(envelope).Some?
    ensures var (a, t, r) := Split(envelope).value;
      envelope == Join(a, t, r)
  {
    var sep1 := IndexOf(envelope, ':', 3);
    var sep2 := IndexOf(envelope, ':', sep1 + 1);
    assert envelope[..sep1] == "v1:" + envelope[3..sep1];
    assert envelope[..sep2] == envelope[..sep1] + ":" + envelope[sep1 + 1..sep2];
    assert envelope == envelope[..sep2] + ":" + envelope[sep2 + 1..];
  }

  lemma LowerJoin(a: string, t: string, r: string)
    ensures Lower(Join(a, t, r)) == Join(Lower(a), Lower(t), Lower(r))
  {
  }

  lemma EncodedIsDecodable(aad: Aad, tag: Tag, ciphertext: seq<byte>)
    requires 0 < |ciphertext| <= PASSWORD_MAX_LENGTH
    ensures Decodable(Encode(aad), Encode(tag), Encode(ciphertext))
  {
    DecodeEncode(aad);
    DecodeEncode(tag);
    DecodeEncode(ciphertext);
  }

  lemma ParseFormat(aad: Aad, tag: Tag, ciphertext: seq<byte>)
    requires 0 < |ciphertext| <= PASSWORD_MAX_LENGTH
    ensures Parse(Format(aad, tag, ciphertext)) == Some(Parts(aad, tag, ciphertext))
  {
    EncodeIsPlain(aad);
    EncodeIsPlain(tag);
    SplitJoin(Encode(aad), Encode(tag), Encode(ciphertext));
    EncodedIsDecodable(aad, tag, ciphertext);
    DecodeEncode(aad);
    DecodeEncode(tag);
    DecodeEncode(ciphertext);
  }

  /** Encryption accepts exactly the passwords of 1 to 48 characters whose
      envelope fits, and decryption into a buffer that fits gives each one back,
      for every key, every associated data and every hash. */
  lemma RoundTrip(key: Key, hash: seq<byte> -> Tag, aad: Aad, plaintext: string, outLen: nat, backLen: nat)
    requires CText(plaintext)
    ensures var e := EncryptPassword(key, hash, aad, plaintext, outLen);
      && (e.Some? <==> 1 <= |plaintext| <= 48 && outLen >= 2 * |plaintext| + 64)
      && (e.Some? ==>
            && |e.value| == 61 + 2 * |plaintext| && CText(e.value)
            && DecryptPassword(key, hash, e.value, backLen)
               == if backLen > |plaintext| then Some(plaintext) else None)
  {
    if Encryptable(plaintext, outLen) {
      var ciphertext := Masked(BytesOf(plaintext), key);
      var tag := TagOf(hash, aad, ciphertext, key);
      ParseFormat(aad, tag, ciphertext);
      MaskedTwice(BytesOf(plaintext), key);
      TextOfBytes(plaintext);
      FormatIsText(aad, tag, ciphertext);
    }
  }

  lemma FormatFields(aad: Aad, tag: Tag, ciphertext: seq<byte>)
    requires 0 < |ciphertext| <= PASSWORD_MAX_LENGTH
    ensures var (a, t, r) := (Encode(aad), Encode(tag), Encode(ciphertext));
      && Split(Format(aad, tag, ciphertext)) == Some((a, t, r))
      && Decodable(a, t, r) && Decode(a) == aad && Decode(t) == tag && Decode(r) == ciphertext
  {
    EncodeIsPlain(aad);
    EncodeIsPlain(tag);
    SplitJoin(Encode(aad), Encode(tag), Encode(ciphertext));
    EncodedIsDecodable(aad, tag, ciphertext);
    DecodeEncode(aad);
    DecodeEncode(tag);
    DecodeEncode(ciphertext);
  }

  /** The bytes of the password are what `ciphertext` and the key differ by. */
  ghost predicate MasksWith(ciphertext: seq<byte>, plaintext: string, key: Key) {
    && |ciphertext| == |plaintext|
    && forall i :: 0 <= i < |plaintext| ==> Xor(ciphertext[i], plaintext[i] as int % 256) == key[i % 32]
  }

  lemma MaskedMasks(plaintext: string, key: Key)
    ensures MasksWith(Masked(BytesOf(plaintext), key), plaintext, key)
  {
    forall i | 0 <= i < |plaintext|
      ensures Xor(Masked(BytesOf(plaintext), key)[i], plaintext[i] as int % 256) == key[i % 32]
    {
      MaskIsKey(BytesOf(plaintext), key, i);
    }
  }

  /** What an envelope shows: its fields are hexadecimal text for the associated data, for
      the hash of that data, the ciphertext and the key, and for the ciphertext, which
      differs from the password by the key at every place. */
  lemma EnvelopeLayout(key: Key, hash: seq<byte> -> Tag, aad: Aad, plaintext: string, outLen: nat)
    returns (a: string, t: string, r: string)
    requires Encryptable(plaintext, outLen)
    ensures var e := EncryptPassword(key, hash, aad, plaintext, outLen);
      e.Some? && Split(e.value) == Some((a, t, r))
    ensures Decodable(a, t, r) && Decode(a) == aad && Decode(t) == hash(aad + Decode(r) + key)
    ensures MasksWith(Decode(r), plaintext, key)
  {
    var ciphertext := Masked(BytesOf(plaintext), key);
    var tag := TagOf(hash, aad, ciphertext, key);
    FormatFields(aad, tag, ciphertext);
    MaskedMasks(plaintext, key);
    a, t, r := Encode(aad), Encode(tag), Encode(ciphertext);
  }

  lemma FormatIsText(aad: Aad, tag: Tag, ciphertext: seq<byte>)
    ensures CText(Format(aad, tag, ciphertext))
  {
    EncodeIsPlain(aad);
    EncodeIsPlain(tag);
    EncodeIsPlain(ciphertext);
  }

  /** Whatever decrypts is, up to the case of its digits, the envelope of its own
      parts under a matching tag: nothing else is accepted. */
  lemma AcceptedIsSealed(key: Key, hash: seq<byte> -> Tag, envelope: string, outLen: nat) returns (p: Parts)
    requires DecryptPassword(key, hash, envelope, outLen).Some?
    ensures p.tag == TagOf(hash, p.aad, p.ciphertext, key)
    ensures Lower(envelope) == Format(p.aad, p.tag, p.ciphertext)
    ensures DecryptPassword(key, hash, envelope, outLen) == Some(TextOf(Masked(p.ciphertext, key)))
  {
    p := Parse(envelope).value;
    var (a, t, r) := Split(envelope).value;
    JoinSplit(envelope);
    LowerJoin(a, t, r);
    EncodeDecode(a);
    EncodeDecode(t);
    EncodeDecode(r);
  }

  // ---- the buffers ----------------------------------------------------------------

  /** The XOR loop that both directions of the AEAD share. */
  method MaskInto(input: seq<byte>, key: Key, output: array<byte>)
    requires |input| <= output.Length
    modifies output
    ensures output[..|input|] == Masked(input, key)
    ensures output[|input|..] == old(output[|input|..])
  {
    var i := 0;
    while i < |input|
      invariant 0 <= i <= |input|
      invariant forall j :: 0 <= j < i ==> output[j] == Xor(input[j], key[j % 32])
      invariant output[|input|..] == old(output[|input|..])
    {
      output[i] := Xor(input[i], key[i % 32]);
      i := i + 1;
    }
  }

  method EncryptAead(key: Key, hash: seq<byte> -> Tag, plaintext: seq<byte>, aad: Aad, ciphertext: array<byte>)
    returns (success: bool, tag: Tag)
    modifies ciphertext
    ensures success <==> |plaintext| + TAG_SIZE <= ciphertext.Length
    ensures success ==> ciphertext[..|plaintext|] == Masked(plaintext, key)
    ensures success ==> tag == TagOf(hash, aad, Masked(plaintext, key), key)
  {
    tag := [0, 0, 0, 0, 0, 0, 0, 0, 0, 0, 0, 0, 0, 0, 0, 0];
    if ciphertext.Length < |plaintext| + TAG_SIZE {
      return false, tag;
    }
    MaskInto(plaintext, key, ciphertext);
    return true, hash(aad + ciphertext[..|plaintext|] + key);
  }

  method DecryptAead(key: Key, hash: seq<byte> -> Tag, ciphertext: seq<byte>, aad: Aad, tag: Tag,
                     plaintext: array<byte>, capacity: nat)
    returns (success: bool)
    requires capacity <= plaintext.Length
    modifies plaintext
    ensures success <==> |ciphertext| <= capacity && TagOf(hash, aad, ciphertext, key) == tag
    ensures success ==> plaintext[..|ciphertext|] == Masked(ciphertext, key)
    ensures !success ==> plaintext[..] == old(plaintext[..])
  {
    if capacity < |ciphertext| || hash(aad + ciphertext + key) != tag {
      return false;
    }
    MaskInto(ciphertext, key, plaintext);
    return true;
  }

  /** `crypto_engine_encrypt_password` into a character buffer. */
  method EncryptInto(key: Key, hash: seq<byte> -> Tag, aad: Aad, plaintext: string, output: array<char>)
    returns (success: bool)
    modifies output
    ensures success <==> EncryptPassword(key, hash, aad, plaintext, output.Length).Some?
    ensures success ==>
      var e := EncryptPassword(key, hash, aad, plaintext, output.Length).value;
      |e| < output.Length && output[..|e|] == e && output[|e|] == '\0'
  {
    var length := if |plaintext| < PASSWORD_MAX_LENGTH then |plaintext| else PASSWORD_MAX_LENGTH;
    if length == 0 || length < |plaintext| {
      return false;
    }
    var raw := new byte[PASSWORD_MAX_LENGTH];
    var sealed, tag := EncryptAead(key, hash, BytesOf(plaintext), aad, raw);
    if !sealed || output.Length < 64 + 2 * length {
      return false;
    }
    FormatInto(aad, tag, raw[..length], output);
    return true;
  }

  method FormatInto(aad: Aad, tag: Tag, ciphertext: seq<byte>, output: array<char>)
    requires |ciphertext| <= PASSWORD_MAX_LENGTH && 64 + 2 * |ciphertext| <= output.Length
    modifies output
    ensures var e := Format(aad, tag, ciphertext);
      |e| < output.Length && output[..|e|] == e && output[|e|] == '\0'
  {
    var aadHex, tagHex, rawHex := new char[25], new char[33], new char[2 * PASSWORD_MAX_LENGTH + 1];
    var encoded := EncodeInto(aad, aadHex);
    encoded := EncodeInto(tag, tagHex);
    encoded := EncodeInto(ciphertext, rawHex);
    PrintInto(Join(aadHex[..24], tagHex[..32], rawHex[..2 * |ciphertext|]), output);
  }

  lemma {:induction false} TextOfTerminated(bs: seq<byte>, n: nat)
    requires n < |bs| && bs[n] == 0
    ensures TextOf(bs) == TextOf(bs[..n])
    decreases n
  {
    if n > 0 && bs[0] != 0 {
      assert bs[..n][1..] == bs[1..][..n - 1];
      TextOfTerminated(bs[1..], n - 1);
    }
  }

  lemma DecryptFromFields(key: Key, hash: seq<byte> -> Tag, envelope: string, outLen: nat,
                          a: string, t: string, r: string)
    requires Split(envelope) == Some((a, t, r)) && outLen >= 2
    ensures DecryptPassword(key, hash, envelope, outLen)
         == if Decodable(a, t, r) && |r| / 2 <= outLen - 1 && TagOf(hash, Decode(a), Decode(r), key) == Decode(t)
            then Some(TextOf(Masked(Decode(r), key))) else None
  {
  }

  /** `crypto_engine_decrypt_password`: the output buffer then starts with the
      password as a C string, or with an empty one if anything is wrong. */
  method DecryptInto(key: Key, hash: seq<byte> -> Tag, envelope: string, output: array<byte>) returns (success: bool)
    modifies output
    ensures success <==> DecryptPassword(key, hash, envelope, output.Length).Some?
    ensures success ==> DecryptPassword(key, hash, envelope, output.Length) == Some(TextOf(output[..]))
    ensures !success && output.Length >= 2 ==> TextOf(output[..]) == ""
  {
    if output.Length < 2 {
      return false;
    }
    output[0] := 0;
    if !("v1:" <= envelope) {
      return false;
    }
    var sep1 := FindChar(envelope, ':', 3);
    if sep1 == |envelope| {
      return false;
    }
    var sep2 := FindChar(envelope, ':', sep1 + 1);
    if sep2 == |envelope| {
      return false;
    }
    var a, t, r := envelope[3..sep1], envelope[sep1 + 1..sep2], envelope[sep2 + 1..];
    DecryptFromFields(key, hash, envelope, output.Length, a, t, r);
    success := DecryptFields(key, hash, a, t, r, output);
  }

  method DecryptFields(key: Key, hash: seq<byte> -> Tag, a: string, t: string, r: string, output: array<byte>)
    returns (success: bool)
    requires output.Length >= 2 && output[0] == 0
    modifies output
    ensures success <==> Decodable(a, t, r) && |r| / 2 <= output.Length - 1
                         && TagOf(hash, Decode(a), Decode(r), key) == Decode(t)
    ensures success ==> TextOf(output[..]) == TextOf(Masked(Decode(r), key))
    ensures !success ==> output[0] == 0
  {
    if |a| != 24 || |t| != 32 || |r| % 2 != 0 || |r| == 0 {
      return false;
    }
    var aad, tag, raw := new byte[12], new byte[16], new byte[PASSWORD_MAX_LENGTH];
    var aadOk, aadLen := DecodeInto(a, aad);
    var tagOk, tagLen := DecodeInto(t, tag);
    var rawOk, rawLen := DecodeInto(r, raw);
    if !aadOk || !tagOk || !rawOk {
      return false;
    }
    assert aad[..12] == aad[..] && tag[..16] == tag[..];
    success := DecryptAead(key, hash, raw[..rawLen], aad[..], tag[..], output, output.Length - 1);
    if success {
      output[rawLen] := 0;
      TextOfTerminated(output[..], rawLen);
      assert output[..][..rawLen] == Masked(Decode(r), key);
    } else {
      var i := 0;
      while i < output.Length
        invariant 0 <= i <= output.Length
        invariant output[0] == 0
      {
        output[i] := 0;
        i := i + 1;
      }
    }
  }
}
