/** storage_backend.c: two flash slots written in turn. A write is one erase
    followed by one program step per 32-bit word, and power may fail after any
    of them. Flash is bytes; the processor is little-endian. */
module Storage {
  import opened Basics

  const MAX_PAYLOAD: nat := 256
  const HEADER_SIZE: nat := 16
  const SLOT_SIZE: nat := 272
  /** Offsets of the header fields; three bytes of padding follow the checksum. */
  const SCHEMA_AT: nat := 4
  const LENGTH_AT: nat := 8
  const CRC_AT: nat := 12
  /** One erase and 68 words. */
  const WRITE_STEPS: nat := 69

  /** 256 to the `k`. */
  function Limit(k: nat): nat { if k == 0 then 1 else 256 * Limit(k - 1) }

  /** The `k` bytes of a number in memory, least significant first. */
  function ToLe(n: nat, k: nat): (bs: seq<byte>)
    ensures |bs| == k
  {
    if k == 0 then [] else [n % 256] + ToLe(n / 256, k - 1)
  }

  function FromLe(bs: seq<byte>): (n: nat)
    ensures n < Limit(|bs|)
  {
    if bs == [] then 0 else bs[0] + 256 * FromLe(bs[1..])
  }

  function Le32(n: uint32): (bs: seq<byte>)
    ensures |bs| == 4
  {
    ToLe(n, 4)
  }

  lemma LimitOf4()
    ensures Limit(4) == 0x1_0000_0000
  {
    assert Limit(2) == 0x1_0000;
  }

  function WordAt(slot: seq<byte>, at: nat): uint32
    requires at + 4 <= |slot|
  {
    LimitOf4();
    FromLe(slot[at..at + 4])
  }

  function Crc8(bs: seq<byte>): byte {
    if bs == [] then 0 else Xor(Crc8(bs[..|bs| - 1]), bs[|bs| - 1])
  }

  /** A byte incremented in eight bits. */
  function Bumped(b: byte): byte { (b as int + 1) % 256 }

  function Erased(n: nat): seq<byte> { seq(n, _ => 255) }

  type Slot = s: seq<byte> | |s| == SLOT_SIZE witness Erased(SLOT_SIZE)

  function Generation(s: Slot): uint32 { WordAt(s, 0) }

  function Schema(s: Slot): uint32 { WordAt(s, SCHEMA_AT) }

  function Length(s: Slot): uint32 { WordAt(s, LENGTH_AT) }

  /** What the header checksum covers: the three header words, as the comments in the
      source ask, or the fifteen bytes its length expression comes to - the words, the
      checksum byte itself and the first two bytes of padding. */
  datatype Cover = HeaderWords | AsWritten {
    function End(): nat { if HeaderWords? then CRC_AT else CRC_AT + 3 }
  }

  /** `is_slot_valid`: a plausible length and a matching checksum. */
  predicate IsValid(s: Slot, cover: Cover) {
    0 < Length(s) <= MAX_PAYLOAD && Crc8(s[..cover.End()]) == s[CRC_AT]
  }

  function Payload(s: Slot): seq<byte>
    requires Length(s) <= MAX_PAYLOAD
  {
    s[HEADER_SIZE..HEADER_SIZE + Length(s)]
  }

  predicate SlotNewer(a: Slot, b: Slot) {
    if Length(a) == 0 then false
    else if Length(b) == 0 then true
    else Generation(a) > Generation(b)
  }

  datatype Side = A | B

  /** The two slots, how often each was erased, and the checksum in use. */
  datatype Flash = Flash(a: Slot, b: Slot, erasesA: nat, erasesB: nat, cover: Cover) {
    function At(side: Side): Slot { if side.A? then a else b }

    predicate Valid(side: Side) { IsValid(At(side), cover) }

    function Latest(): Option<Side> {
      if Valid(A) && Valid(B) then (if SlotNewer(a, b) then Some(A) else Some(B))
      else if Valid(A) then Some(A)
      else if Valid(B) then Some(B)
      else None
    }

    function Target(): Side {
      if !Valid(A) then A
      else if !Valid(B) then B
      else if SlotNewer(a, b) then B else A
    }

    function NextGeneration(): uint32 {
      if Valid(A) && Valid(B) then
        Wrap32((if Generation(a) > Generation(b) then Generation(a) else Generation(b)) + 1)
      else if Valid(A) then Wrap32(Generation(a) + 1)
      else if Valid(B) then Wrap32(Generation(b) + 1)
      else 1
    }

    /** `read_latest` into a buffer of the given capacity: payload and schema. */
    function Read(capacity: nat): Option<(seq<byte>, uint32)> {
      var side := Latest();
      if side.None? then None
      else
        var s := At(side.value);
        if Length(s) > capacity then None else Some((Payload(s), Schema(s)))
    }

    /** The flash after `steps` steps of writing an image over one slot. */
    function Written(side: Side, image: Slot, steps: nat): Flash {
      var s, erased := AfterSteps(At(side), image, steps), if steps > 0 then 1 else 0;
      if side.A? then this.(a := s, erasesA := erasesA + erased) else this.(b := s, erasesB := erasesB + erased)
    }

    function AfterWrite(payload: seq<byte>, schema: uint32, stack: Slot, steps: nat): Flash
      requires 0 < |payload| <= MAX_PAYLOAD
    {
      Written(Target(), Image(cover, NextGeneration(), schema, payload, stack), steps)
    }

    function AfterCorrupt(steps: nat): Flash {
      var side := Latest();
      if side.None? then this
      else
        var s := At(side.value);
        Written(side.value, s[CRC_AT := Bumped(s[CRC_AT])], steps)
    }

    /** `wipe`, with power for `steps` erases. */
    function AfterWipe(steps: nat): Flash {
      var f := if steps >= 1 then this.(a := Erased(SLOT_SIZE), erasesA := erasesA + 1) else this;
      if steps >= 2 then f.(b := Erased(SLOT_SIZE), erasesB := erasesB + 1) else f
    }
  }

  /** The new slot as built on the stack: padding and the unused payload bytes are
      whatever the stack held, and so is the checksum byte while it is computed. */
  function Image(cover: Cover, generation: uint32, schema: uint32, payload: seq<byte>, stack: Slot): Slot
    requires 0 < |payload| <= MAX_PAYLOAD
  {
    var words := Le32(generation) + Le32(schema) + Le32(|payload|);
    var crc := Crc8((words + stack[CRC_AT..HEADER_SIZE])[..cover.End()]);
    words + [crc] + stack[CRC_AT + 1..HEADER_SIZE] + payload + stack[HEADER_SIZE + |payload|..]
  }

  /** Nothing, then the erase, then word after word of the image. */
  function AfterSteps(before: Slot, image: Slot, steps: nat): Slot {
    if steps == 0 then before
    else if steps >= WRITE_STEPS then image
    else image[..4 * (steps - 1)] + Erased(SLOT_SIZE - 4 * (steps - 1))
  }

  function Blank(cover: Cover): Flash { Flash(Erased(SLOT_SIZE), Erased(SLOT_SIZE), 0, 0, cover) }

  class StorageBackend {
    const sectorA: array<byte>
    const sectorB: array<byte>
    const cover: Cover
    var erasesA: nat
    var erasesB: nat
    var initialized: bool

    ghost predicate Valid()
      reads this
    {
      sectorA.Length == sectorB.Length == SLOT_SIZE && sectorA != sectorB
    }

    function View(): Flash
      requires Valid()
      reads this, sectorA, sectorB
    {
      Flash(sectorA[..], sectorB[..], erasesA, erasesB, cover)
    }

    constructor (cover: Cover)
      ensures Valid() && fresh(sectorA) && fresh(sectorB)
      ensures View() == Blank(cover) && !initialized
    {
      this.cover := cover;
      sectorA := new byte[SLOT_SIZE](_ => 255);
      sectorB := new byte[SLOT_SIZE](_ => 255);
      erasesA, erasesB, initialized := 0, 0, false;
      new;
      assert sectorA[..] == Erased(SLOT_SIZE) && sectorB[..] == Erased(SLOT_SIZE);
    }

    method Init()
      modifies this`initialized
      ensures initialized
    {
      initialized := true;
    }

    static method CalculateCrc8(data: seq<byte>) returns (crc: byte)
      ensures crc == Crc8(data)
    {
      crc := 0;
      var i := 0;
      while i < |data|
        invariant 0 <= i <= |data| && crc == Crc8(data[..i])
      {
        assert data[..i + 1][..i] == data[..i];
        crc := Xor(crc, data[i]);
        i := i + 1;
      }
      assert data[..i] == data;
    }

    /** Erase and program one sector; `power` is how many steps the supply lasts. */
    method WriteFlashSector(side: Side, image: Slot, power: nat) returns (success: bool)
      requires Valid()
      modifies this`erasesA, this`erasesB, sectorA, sectorB
      ensures View() == old(View()).Written(side, image, power)
      ensures success <==> power >= WRITE_STEPS
    {
      if power == 0 {
        return false;
      }
      if side.A? {
        erasesA := erasesA + 1;
        EraseAndProgram(sectorA, image, power);
      } else {
        erasesB := erasesB + 1;
        EraseAndProgram(sectorB, image, power);
      }
      return power >= WRITE_STEPS;
    }

    method EraseAndProgram(sector: array<byte>, image: Slot, power: nat)
      requires sector.Length == SLOT_SIZE && power > 0
      modifies sector
      ensures sector[..] == AfterSteps(old(sector[..]), image, power)
    {
      EraseSector(sector);
      var i, left := 0, power - 1;
      while i < SLOT_SIZE && left > 0
        invariant 0 <= i <= SLOT_SIZE && left >= 0 && i == 4 * (power - 1 - left)
        invariant sector[..i] == image[..i] && sector[i..] == Erased(SLOT_SIZE - i)
      {
        ghost var before := sector[i..];
        ProgramWord(sector, i, image);
        assert sector[i + 4..] == before[4..] == Erased(SLOT_SIZE - (i + 4));
        assert sector[..i + 4] == sector[..i] + sector[i..i + 4];
        i := i + 4;
        left := left - 1;
      }
      assert sector[..] == sector[..i] + sector[i..];
      if i == SLOT_SIZE {
        assert sector[..] == image[..SLOT_SIZE] == image;
      }
    }

    method EraseSector(sector: array<byte>)
      requires sector.Length == SLOT_SIZE
      modifies sector
      ensures sector[..] == Erased(SLOT_SIZE)
    {
      forall j | 0 <= j < sector.Length {
        sector[j] := 255;
      }
    }

    method ProgramWord(sector: array<byte>, i: nat, image: Slot)
      requires sector.Length == SLOT_SIZE && i + 4 <= SLOT_SIZE
      modifies sector
      ensures sector[..i] == old(sector[..i]) && sector[i + 4..] == old(sector[i + 4..])
      ensures sector[i..i + 4] == image[i..i + 4]
    {
      sector[i], sector[i + 1], sector[i + 2], sector[i + 3] := image[i], image[i + 1], image[i + 2], image[i + 3];
    }

    method WriteAtomic(payload: seq<byte>, schema: uint32, stack: Slot, power: nat) returns (success: bool)
      requires Valid()
      modifies this`erasesA, this`erasesB, sectorA, sectorB
      ensures Valid()
      ensures View() == if initialized && 0 < |payload| <= MAX_PAYLOAD
                        then old(View()).AfterWrite(payload, schema, stack, power) else old(View())
      ensures success <==> initialized && 0 < |payload| <= MAX_PAYLOAD && power >= WRITE_STEPS
    {
      if !initialized || |payload| == 0 || |payload| > MAX_PAYLOAD {
        return false;
      }
      var slotA: Slot, slotB: Slot := sectorA[..], sectorB[..];
      var validA, validB := IsValid(slotA, cover), IsValid(slotB, cover);
      var next: uint32 := 1;
      if validA && validB {
        next := Wrap32((if Generation(slotA) > Generation(slotB) then Generation(slotA) else Generation(slotB)) + 1);
      } else if validA {
        next := Wrap32(Generation(slotA) + 1);
      } else if validB {
        next := Wrap32(Generation(slotB) + 1);
      }
      var side := B;
      if !validA {
        side := A;
      } else if validB && !SlotNewer(slotA, slotB) {
        side := A;
      }
      assert next == View().NextGeneration() && side == View().Target();
      success := WriteFlashSector(side, Image(cover, next, schema, payload, stack), power);
    }

    method ReadLatest(capacity: nat) returns (record: Option<(seq<byte>, uint32)>)
      requires Valid()
      ensures record == if initialized then View().Read(capacity) else None
    {
      if !initialized {
        return None;
      }
      var slotA: Slot, slotB: Slot := sectorA[..], sectorB[..];
      var validA, validB := IsValid(slotA, cover), IsValid(slotB, cover);
      if !validA && !validB {
        return None;
      }
      var latest := if validA && (!validB || SlotNewer(slotA, slotB)) then slotA else slotB;
      if Length(latest) > capacity {
        return None;
      }
      return Some((Payload(latest), Schema(latest)));
    }

    method CorruptLatest(power: nat) returns (success: bool)
      requires Valid()
      modifies this`erasesA, this`erasesB, sectorA, sectorB
      ensures Valid()
      ensures View() == if initialized then old(View()).AfterCorrupt(power) else old(View())
      ensures success <==> initialized && old(View()).Latest().Some? && power >= WRITE_STEPS
    {
      if !initialized {
        return false;
      }
      var slotA: Slot, slotB: Slot := sectorA[..], sectorB[..];
      var validA, validB := IsValid(slotA, cover), IsValid(slotB, cover);
      if !validA && !validB {
        return false;
      }
      var side := if validA && (!validB || SlotNewer(slotA, slotB)) then A else B;
      var slot := if side.A? then slotA else slotB;
      success := WriteFlashSector(side, slot[CRC_AT := Bumped(slot[CRC_AT])], power);
    }

    /** Erases both sectors, one after the other, as far as the power lasts; after
        the second the backend refuses everything until `Init`. */
    method Wipe(power: nat) returns (success: bool)
      requires Valid()
      modifies this, sectorA, sectorB
      ensures Valid()
      ensures View() == if old(initialized) then old(View()).AfterWipe(power) else old(View())
      ensures success <==> old(initialized) && power >= 2
      ensures initialized <==> old(initialized) && !success
    {
      if !initialized || power == 0 {
        return false;
      }
      EraseSector(sectorA);
      erasesA := erasesA + 1;
      if power == 1 {
        return false;
      }
      EraseSector(sectorB);
      erasesB := erasesB + 1;
      initialized := false;
      return true;
    }
  }
}
