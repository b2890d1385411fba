/** The packed FAT12 table of usb_msc.c: two 12-bit entries in three bytes, so
    that neighbouring entries share one. The C masks and shifts are written as
    remainders and quotients by powers of two. */
module Fat12 {
  import opened Basics

  const TABLE_SIZE: nat := 2048

  /** Clusters whose two bytes lie inside the table. */
  predicate InRange(c: nat) { (c * 3) / 2 + 1 < TABLE_SIZE }

  /** Nibble `n` of the table, low nibble of each byte first. */
  function Nibble(fat: seq<byte>, n: nat): nat
    requires n < 2 * |fat|
  {
    if n % 2 == 0 then fat[n / 2] % 16 else fat[n / 2] / 16
  }

  /** The 12-bit number in nibbles 3c, 3c+1 and 3c+2: what the format calls entry c. */
  function Packed(fat: seq<byte>, c: nat): nat
    requires |fat| == TABLE_SIZE && InRange(c)
  {
    Nibble(fat, 3 * c) + 16 * Nibble(fat, 3 * c + 1) + 256 * Nibble(fat, 3 * c + 2)
  }

  function GetEntry(fat: seq<byte>, c: nat): nat
    requires |fat| == TABLE_SIZE && InRange(c)
  {
    var o := (c * 3) / 2;
    if c == 0 then 0xFFF
    else
      var lo: nat, hi: nat := fat[o], fat[o + 1];
      if c % 2 == 1 then lo / 16 + hi * 16 else (lo + hi * 256) % 4096
  }

  function SetEntry(fat: seq<byte>, c: nat, value: uint32): seq<byte>
    requires |fat| == TABLE_SIZE && InRange(c)
  {
    var o := (c * 3) / 2;
    var entry := value % 0x1_0000;
    if c == 0 then fat
    else if c % 2 == 1 then
      fat[o := fat[o] % 16 + (entry % 16) * 16][o + 1 := (entry / 16) % 256]
    else
      fat[o := entry % 256][o + 1 := (fat[o + 1] / 16) * 16 + (entry / 256) % 16]
  }

  class FatTable {
    const bytes: array<byte>

    ghost predicate Valid()
      reads this
    {
      bytes.Length == TABLE_SIZE
    }

    constructor ()
      ensures Valid() && fresh(bytes)
    {
      bytes := new byte[TABLE_SIZE](_ => 0);
    }

    method Get(c: nat) returns (entry: nat)
      requires Valid() && InRange(c)
      ensures entry == GetEntry(bytes[..], c)
    {
      if c == 0 {
        return 0xFFF;
      }
      var offset := (c * 3) / 2;
      var lo: nat, hi: nat := bytes[offset], bytes[offset + 1];
      if c % 2 == 1 {
        entry := lo / 16 + hi * 16;
      } else {
        entry := (lo + hi * 256) % 4096;
      }
    }

    method Set(c: nat, value: uint32)
      requires Valid() && InRange(c)
      modifies bytes
      ensures bytes[..] == SetEntry(old(bytes[..]), c, value)
    {
      if c == 0 {
        return;
      }
      var offset := (c * 3) / 2;
      var entry := value % 0x1_0000;
      if c % 2 == 1 {
        bytes[offset] := bytes[offset] % 16 + (entry % 16) * 16;
        bytes[offset + 1] := (entry / 16) % 256;
      } else {
        bytes[offset] := entry % 256;
        bytes[offset + 1] := (bytes[offset + 1] / 16) * 16 + (entry / 256) % 16;
      }
    }
  }

  /** Cluster 0 is reserved: it reads as end of chain and cannot be written. */
  lemma ReservedEntry(fat: seq<byte>, value: uint32)
    requires |fat| == TABLE_SIZE
    ensures GetEntry(fat, 0) == 4095 && SetEntry(fat, 0, value) == fat
  {
  }

  lemma OddEntry(lo: byte, hi: byte)
    ensures (lo as int) / 16 + (hi as int) * 16 == lo / 16 + 16 * ((hi as int) % 16) + 256 * ((hi as int) / 16) < 4096
  {
  }

  lemma EvenEntry(lo: byte, hi: byte)
    ensures ((lo as int) + (hi as int) * 256) % 4096
         == (lo as int) % 16 + 16 * ((lo as int) / 16) + 256 * ((hi as int) % 16) < 4096
  {
    var h, l := (hi as int) / 16, (hi as int) % 16;
    assert (lo as int) + (hi as int) * 256 == 4096 * h + ((lo as int) + 256 * l);
  }

  lemma PackedOdd(fat: seq<byte>, k: nat)
    requires |fat| == TABLE_SIZE && InRange(2 * k + 1)
    ensures GetEntry(fat, 2 * k + 1) == Packed(fat, 2 * k + 1) < 4096
  {
    assert ((2 * k + 1) * 3) / 2 == 3 * k + 1;
    OddEntry(fat[3 * k + 1], fat[3 * k + 2]);
  }

  lemma PackedEven(fat: seq<byte>, k: nat)
    requires |fat| == TABLE_SIZE && InRange(2 * k) && k > 0
    ensures GetEntry(fat, 2 * k) == Packed(fat, 2 * k) < 4096
  {
    assert ((2 * k) * 3) / 2 == 3 * k;
    EvenEntry(fat[3 * k], fat[3 * k + 1]);
  }

  /** Reading cluster c yields the packed number, whichever half of the shared byte it uses. */
  lemma GetIsPacked(fat: seq<byte>, c: nat)
    requires |fat| == TABLE_SIZE && InRange(c) && c > 0
    ensures GetEntry(fat, c) == Packed(fat, c) < 4096
  {
    var k := c / 2;
    if c % 2 == 1 {
      PackedOdd(fat, k);
    } else {
      PackedEven(fat, k);
    }
  }

  /** The masks and shifts of `set_fat_entry` take the hexadecimal digits of the low 16 bits ... */
  lemma OddBytes(value: uint32, old0: byte)
    ensures var e := value % 0x1_0000;
      var byte0, byte1 := old0 % 16 + (e % 16) * 16, (e / 16) % 256;
      && 0 <= byte0 < 256 && byte0 % 16 == old0 % 16 && byte0 / 16 == value % 16
      && byte1 % 16 == (value / 16) % 16 && byte1 / 16 == (value / 256) % 16
  {
    LowDigits(value);
    MiddleDigits(value % 0x1_0000);
  }

  lemma EvenBytes(value: uint32, old1: byte)
    ensures var e := value % 0x1_0000;
      var byte0, byte1 := e % 256, (old1 / 16) * 16 + (e / 256) % 16;
      && 0 <= byte1 < 256 && byte0 % 16 == value % 16 && byte0 / 16 == (value / 16) % 16
      && byte1 % 16 == (value / 256) % 16 && byte1 / 16 == old1 / 16
  {
    LowDigits(value);
    MiddleDigits(value % 0x1_0000);
  }

  lemma MiddleDigits(e: uint16)
    ensures (e % 256) % 16 == e % 16 && (e % 256) / 16 == (e / 16) % 16
    ensures ((e / 16) % 256) % 16 == (e / 16) % 16 && ((e / 16) % 256) / 16 == (e / 256) % 16
  {
    assert e / 256 == (e / 16) / 16;
  }

  /** ... which are those of the whole value. */
  lemma LowDigits(value: uint32)
    ensures var e := value % 0x1_0000;
      e % 16 == value % 16 && (e / 16) % 16 == (value / 16) % 16 && (e / 256) % 16 == (value / 256) % 16
  {
    var h, e := value / 0x1_0000, value % 0x1_0000;
    ShiftedDigit(h * 4096, e);
    assert value / 16 == (h * 256) * 16 + e / 16;
    ShiftedDigit(h * 256, e / 16);
    assert value / 256 == (h * 16) * 16 + e / 256;
    ShiftedDigit(h * 16, e / 256);
  }

  lemma ShiftedDigit(h: nat, e: nat)
    ensures (h * 16 + e) % 16 == e % 16
  {
  }

  lemma DigitsMakeValue(value: uint32)
    ensures value % 16 + 16 * ((value / 16) % 16) + 256 * ((value / 256) % 16) == value % 4096
  {
    assert value / 256 == (value / 16) / 16 && value / 4096 == (value / 256) / 16;
  }

  lemma NibbleOfPair(fat: seq<byte>, o: nat, byte0: byte, byte1: byte, n: nat)
    requires o + 1 < |fat| && n < 2 * |fat|
    ensures Nibble(fat[o := byte0][o + 1 := byte1], n)
         == if n == 2 * o then byte0 % 16
            else if n == 2 * o + 1 then byte0 / 16
            else if n == 2 * o + 2 then byte1 % 16
            else if n == 2 * o + 3 then byte1 / 16
            else Nibble(fat, n)
  {
  }

  lemma SetOdd(fat: seq<byte>, k: nat, value: uint32, n: nat)
    requires |fat| == TABLE_SIZE && InRange(2 * k + 1) && n < 2 * TABLE_SIZE
    ensures Nibble(SetEntry(fat, 2 * k + 1, value), n)
         == if n == 6 * k + 3 then value % 16
            else if n == 6 * k + 4 then (value / 16) % 16
            else if n == 6 * k + 5 then (value / 256) % 16
            else Nibble(fat, n)
  {
    var o, e := 3 * k + 1, value % 0x1_0000;
    assert ((2 * k + 1) * 3) / 2 == o;
    OddBytes(value, fat[o]);
    NibbleOfPair(fat, o, fat[o] % 16 + (e % 16) * 16, (e / 16) % 256, n);
  }

  lemma SetEven(fat: seq<byte>, k: nat, value: uint32, n: nat)
    requires |fat| == TABLE_SIZE && InRange(2 * k) && k > 0 && n < 2 * TABLE_SIZE
    ensures Nibble(SetEntry(fat, 2 * k, value), n)
         == if n == 6 * k then value % 16
            else if n == 6 * k + 1 then (value / 16) % 16
            else if n == 6 * k + 2 then (value / 256) % 16
            else Nibble(fat, n)
  {
    var o, e := 3 * k, value % 0x1_0000;
    assert ((2 * k) * 3) / 2 == o;
    EvenBytes(value, fat[o + 1]);
    NibbleOfPair(fat, o, e % 256, (fat[o + 1] / 16) * 16 + (e / 256) % 16, n);
  }

  /** Writing cluster c changes its own three nibbles, to the three digits of the
      value, and no other nibble of the table. */
  lemma SetChangesOwnNibbles(fat: seq<byte>, c: nat, value: uint32, n: nat)
    requires |fat| == TABLE_SIZE && InRange(c) && c > 0 && n < 2 * TABLE_SIZE
    ensures Nibble(SetEntry(fat, c, value), n)
         == if n == 3 * c then value % 16
            else if n == 3 * c + 1 then (value / 16) % 16
            else if n == 3 * c + 2 then (value / 256) % 16
            else Nibble(fat, n)
  {
    var k := c / 2;
    if c % 2 == 1 {
      SetOdd(fat, k, value, n);
    } else {
      SetEven(fat, k, value, n);
    }
  }

  lemma PackedAfterSet(fat: seq<byte>, c: nat, value: uint32)
    requires |fat| == TABLE_SIZE && InRange(c) && c > 0
    ensures Packed(SetEntry(fat, c, value), c) == value % 4096
  {
    DigitsMakeValue(value);
    SetChangesOwnNibbles(fat, c, value, 3 * c);
    SetChangesOwnNibbles(fat, c, value, 3 * c + 1);
    SetChangesOwnNibbles(fat, c, value, 3 * c + 2);
  }

  /** What is written is read back, cut to twelve bits; so a value comes back
      unchanged exactly when it is below 4096. */
  lemma GetAfterSet(fat: seq<byte>, c: nat, value: uint32)
    requires |fat| == TABLE_SIZE && InRange(c) && c > 0
    ensures GetEntry(SetEntry(fat, c, value), c) == value % 4096
    ensures GetEntry(SetEntry(fat, c, value), c) == value <==> value < 4096
  {
    GetIsPacked(SetEntry(fat, c, value), c);
    PackedAfterSet(fat, c, value);
  }

  /** Every other cluster reads as before, neighbours sharing a byte included. */
  lemma GetElsewhere(fat: seq<byte>, c: nat, d: nat, value: uint32)
    requires |fat| == TABLE_SIZE && InRange(c) && InRange(d) && c != d
    ensures GetEntry(SetEntry(fat, c, value), d) == GetEntry(fat, d)
  {
    if c > 0 && d > 0 {
      GetIsPacked(SetEntry(fat, c, value), d);
      GetIsPacked(fat, d);
      SetChangesOwnNibbles(fat, c, value, 3 * d);
      SetChangesOwnNibbles(fat, c, value, 3 * d + 1);
      SetChangesOwnNibbles(fat, c, value, 3 * d + 2);
    }
  }
}
