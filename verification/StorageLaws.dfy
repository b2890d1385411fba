/** Recovery after power cuts, and the discipline of the two slots. */
module StorageLaws {
  import opened Basics
  import opened Storage

  // ---- one slot ---------------------------------------------------------------

  lemma {:induction false} LeRoundTrip(n: nat, k: nat)
    requires n < Limit(k)
    ensures FromLe(ToLe(n, k)) == n
    decreases k
  {
    if k > 0 {
      LeRoundTrip(n / 256, k - 1);
      assert ToLe(n, k)[1..] == ToLe(n / 256, k - 1);
    }
  }

  lemma Le32RoundTrip(n: uint32)
    ensures FromLe(Le32(n)) == n
  {
    LimitOf4();
    LeRoundTrip(n, 4);
  }

  lemma {:induction false} FromLeOfOnes(bs: seq<byte>)
    requires forall i :: 0 <= i < |bs| ==> bs[i] == 255
    ensures FromLe(bs) == Limit(|bs|) - 1
    decreases |bs|
  {
    if bs != [] {
      FromLeOfOnes(bs[1..]);
    }
  }

  /** The words of the header, and what the padding adds to them as the checksum is written. */
  function Parity(s: Slot): byte { Xor(Xor(Crc8(s[..CRC_AT]), s[CRC_AT + 1]), s[CRC_AT + 2]) }

  lemma CrcSnoc(bs: seq<byte>, n: nat)
    requires n < |bs|
    ensures Crc8(bs[..n + 1]) == Xor(Crc8(bs[..n]), bs[n])
  {
    assert bs[..n + 1][..n] == bs[..n];
  }

  /** The checksum over all fifteen bytes: the words, the checksum byte, the padding. */
  lemma CrcOfFifteen(bs: seq<byte>)
    requires |bs| >= HEADER_SIZE
    ensures Crc8(bs[..CRC_AT + 3])
         == Xor(Xor(Xor(Crc8(bs[..CRC_AT]), bs[CRC_AT]), bs[CRC_AT + 1]), bs[CRC_AT + 2])
  {
    CrcSnoc(bs, CRC_AT);
    CrcSnoc(bs, CRC_AT + 1);
    CrcSnoc(bs, CRC_AT + 2);
  }

  /** As the checksum is written, its own value has no bearing on whether it matches. */
  lemma AsWrittenChecksParity(s: Slot)
    ensures Crc8(s[..AsWritten.End()]) == s[CRC_AT] <==> Parity(s) == 0
  {
    CrcOfFifteen(s);
    XorSelfCancels(Crc8(s[..CRC_AT]), s[CRC_AT], s[CRC_AT + 1], s[CRC_AT + 2]);
  }

  /** A new slot image holds what was asked for. It is valid under the checksum that
      was meant, and under the one written if and only if the bytes of its three
      header words and of the padding behind the checksum cancel out. */
  lemma ImageFields(cover: Cover, generation: uint32, schema: uint32, payload: seq<byte>, stack: Slot)
    requires 0 < |payload| <= MAX_PAYLOAD
    ensures var s := Image(cover, generation, schema, payload, stack);
      && Generation(s) == generation && Schema(s) == schema && Length(s) == |payload| && Payload(s) == payload
      && s[CRC_AT + 1] == stack[CRC_AT + 1] && s[CRC_AT + 2] == stack[CRC_AT + 2]
      && s[HEADER_SIZE + |payload|..] == stack[HEADER_SIZE + |payload|..]
      && (cover.HeaderWords? ==> Crc8(s[..CRC_AT]) == s[CRC_AT])
      && (IsValid(s, cover) <==> cover.HeaderWords? || Parity(s) == 0)
  {
    var s := Image(cover, generation, schema, payload, stack);
    var words := Le32(generation) + Le32(schema) + Le32(|payload|);
    assert s[..CRC_AT] == words && (words + stack[CRC_AT..HEADER_SIZE])[..CRC_AT] == words;
    assert s[0..4] == Le32(generation) && s[4..8] == Le32(schema) && s[8..12] == Le32(|payload|);
    Le32RoundTrip(generation);
    Le32RoundTrip(schema);
    Le32RoundTrip(|payload|);
    assert s[HEADER_SIZE..HEADER_SIZE + |payload|] == payload;
    AsWrittenChecksParity(s);
  }

  /** Does a write of this image that stops after `steps` leave a slot that counts as
      valid? The checksum word is the fourth; before it, erased bytes stand in its place. */
  predicate Commits(cover: Cover, image: Slot, steps: nat) {
    if cover.HeaderWords? then steps >= 5 || (steps == 4 && Crc8(image[..CRC_AT]) == 255)
    else (steps >= 5 && Parity(image) == 0) || (steps == 4 && Crc8(image[..CRC_AT]) == 0)
  }

  lemma CutHeader(before: Slot, image: Slot, steps: nat)
    requires steps >= 1
    ensures var s := AfterSteps(before, image, steps);
      && (steps <= 3 ==> Length(s) == UINT32_MAX)
      && (steps >= 4 ==> s[..CRC_AT] == image[..CRC_AT] && Generation(s) == Generation(image)
                         && Schema(s) == Schema(image) && Length(s) == Length(image))
      && (steps == 4 ==> s[CRC_AT] == s[CRC_AT + 1] == s[CRC_AT + 2] == 255)
      && (steps >= 5 ==> s[CRC_AT..HEADER_SIZE] == image[CRC_AT..HEADER_SIZE])
  {
    var s := AfterSteps(before, image, steps);
    assert steps >= 5 ==> forall i :: 0 <= i < HEADER_SIZE ==> s[i] == image[i];
    if steps >= 4 {
      assert forall i :: 0 <= i < CRC_AT ==> s[i] == image[i];
      assert s[0..4] == image[0..4] && s[4..8] == image[4..8] && s[8..12] == image[8..12];
    } else {
      FromLeOfOnes(s[8..12]);
      LimitOf4();
    }
  }

  lemma CutParity(before: Slot, image: Slot, steps: nat)
    requires steps >= 4
    ensures var s := AfterSteps(before, image, steps);
      Parity(s) == if steps >= 5 then Parity(image) else Crc8(image[..CRC_AT])
  {
    CutHeader(before, image, steps);
    var s := AfterSteps(before, image, steps);
    if steps >= 5 {
      assert s[CRC_AT..HEADER_SIZE][1] == image[CRC_AT..HEADER_SIZE][1];
      assert s[CRC_AT..HEADER_SIZE][2] == image[CRC_AT..HEADER_SIZE][2];
    } else {
      XorCancels(Crc8(image[..CRC_AT]), 255);
    }
  }

  /** Exactly when a cut write leaves a valid slot. */
  lemma CutValid(cover: Cover, before: Slot, image: Slot, steps: nat)
    requires steps >= 1 && 0 < Length(image) <= MAX_PAYLOAD
    requires cover.HeaderWords? ==> IsValid(image, cover)
    ensures IsValid(AfterSteps(before, image, steps), cover) <==> Commits(cover, image, steps)
  {
    CutHeader(before, image, steps);
    var s := AfterSteps(before, image, steps);
    if steps >= 4 {
      CutParity(before, image, steps);
      AsWrittenChecksParity(s);
      assert steps >= 5 ==> s[CRC_AT..HEADER_SIZE][0] == image[CRC_AT..HEADER_SIZE][0];
    }
  }

  /** How much of a payload a write that stops after `steps` has programmed. */
  function Programmed(length: nat, steps: nat): (k: nat)
    ensures k <= length
  {
    if steps <= 5 then 0 else if 4 * (steps - 5) >= length then length else 4 * (steps - 5)
  }

  /** A payload as such a write leaves it: the part not yet programmed is erased. */
  function Torn(payload: seq<byte>, steps: nat): seq<byte> {
    var k := Programmed(|payload|, steps);
    payload[..k] + Erased(|payload| - k)
  }

  /** Enough steps to have programmed the last payload word. */
  predicate PastPayload(length: nat, steps: nat) { 4 * (steps - 1) >= HEADER_SIZE + length }

  /** A torn payload is whole exactly when the write got past it, or what is missing
      looks erased anyway. */
  lemma TornIsWholeIff(payload: seq<byte>, steps: nat)
    ensures Torn(payload, steps) == payload
       <==> PastPayload(|payload|, steps)
            || forall i :: Programmed(|payload|, steps) <= i < |payload| ==> payload[i] == 255
  {
    var k, torn := Programmed(|payload|, steps), Torn(payload, steps);
    assert forall i :: 0 <= i < |payload| ==> torn[i] == if i < k then payload[i] else 255;
    if PastPayload(|payload|, steps) && |payload| > 0 {
      assert k == |payload|;
    }
  }

  lemma CutPayload(before: Slot, image: Slot, steps: nat)
    requires 0 < Length(image) <= MAX_PAYLOAD && steps >= 4
    ensures var s := AfterSteps(before, image, steps);
      Length(s) == Length(image) && Payload(s) == Torn(Payload(image), steps)
  {
    CutHeader(before, image, steps);
    var s, n := AfterSteps(before, image, steps), Length(image);
    forall i | 0 <= i < n
      ensures Payload(s)[i] == Torn(Payload(image), steps)[i]
    {
      var k := HEADER_SIZE + i;
      assert s[k] == if steps >= WRITE_STEPS || k < 4 * (steps - 1) then image[k] else 255;
    }
  }

  // ---- one write ----------------------------------------------------------------

  function Other(side: Side): Side { if side.A? then B else A }

  /** The slot that a write is about to erase is never the one in use. */
  lemma TargetNotLatest(f: Flash)
    ensures f.Latest() != Some(f.Target())
    ensures f.Latest() == if f.Valid(Other(f.Target())) then Some(Other(f.Target())) else None
  {
  }

  /** The next generation follows the one of the slot that is kept. */
  lemma NextFollowsKept(f: Flash)
    ensures var kept := f.At(Other(f.Target()));
      f.NextGeneration()
      == if !f.Valid(Other(f.Target())) then 1 else if Generation(kept) == UINT32_MAX then 0 else Generation(kept) + 1
  {
  }

  lemma WrittenSides(f: Flash, side: Side, image: Slot, steps: nat)
    ensures var f' := f.Written(side, image, steps);
      && f'.At(side) == AfterSteps(f.At(side), image, steps)
      && f'.At(Other(side)) == f.At(Other(side))
      && f'.cover == f.cover
  {
  }

  /** One write, cut anywhere, on any flash whose generation does not wrap: the
      slot in use is untouched, and the new record takes over exactly when the cut
      leaves a valid slot. */
  lemma CutWrite(f: Flash, payload: seq<byte>, schema: uint32, stack: Slot, steps: nat)
    requires 0 < |payload| <= MAX_PAYLOAD && f.NextGeneration() != 0
    ensures var f' := f.AfterWrite(payload, schema, stack, steps);
      var image := Image(f.cover, f.NextGeneration(), schema, payload, stack);
      && f'.At(Other(f.Target())) == f.At(Other(f.Target())) && f'.cover == f.cover
      && (if Commits(f.cover, image, steps) then
            && f'.Latest() == Some(f.Target()) && f'.Valid(f.Target())
            && Generation(f'.At(f.Target())) == f.NextGeneration()
            && Schema(f'.At(f.Target())) == schema && Length(f'.At(f.Target())) == |payload|
            && Payload(f'.At(f.Target())) == Torn(payload, steps)
          else f'.Latest() == f.Latest() && (if steps == 0 then f' == f else !f'.Valid(f.Target())))
  {
    var t, image := f.Target(), Image(f.cover, f.NextGeneration(), schema, payload, stack);
    var f' := f.AfterWrite(payload, schema, stack, steps);
    ImageFields(f.cover, f.NextGeneration(), schema, payload, stack);
    WrittenSides(f, t, image, steps);
    TargetNotLatest(f);
    if steps > 0 {
      CutHeader(f.At(t), image, steps);
      CutValid(f.cover, f.At(t), image, steps);
    }
    if Commits(f.cover, image, steps) {
      CutPayload(f.At(t), image, steps);
      NextFollowsKept(f);
      NewerIsLatest(f', t);
    }
  }

  /** What a reader gets after a write cut anywhere: the new record, its payload as
      far as it was programmed, if the cut leaves a valid slot, and otherwise just
      what it got before. */
  lemma CutRead(f: Flash, payload: seq<byte>, schema: uint32, stack: Slot, steps: nat, capacity: nat)
    requires 0 < |payload| <= MAX_PAYLOAD && f.NextGeneration() != 0
    ensures f.AfterWrite(payload, schema, stack, steps).Read(capacity)
         == if !Commits(f.cover, Image(f.cover, f.NextGeneration(), schema, payload, stack), steps)
            then f.Read(capacity)
            else if |payload| <= capacity then Some((Torn(payload, steps), schema)) else None
  {
    CutWrite(f, payload, schema, stack, steps);
    TargetNotLatest(f);
  }

  lemma NewerIsLatest(f: Flash, t: Side)
    requires f.Valid(t)
    requires f.Valid(Other(t)) ==> Generation(f.At(t)) > Generation(f.At(Other(t)))
    ensures f.Latest() == Some(t)
  {
  }

  /** A completed write is the one read back exactly when the latest generation was
      not the largest 32-bit number and, with the checksum as written, the header
      cancels out. */
  lemma ReadBackIff(f: Flash, payload: seq<byte>, schema: uint32, stack: Slot)
    requires 0 < |payload| <= MAX_PAYLOAD
    ensures f.AfterWrite(payload, schema, stack, WRITE_STEPS).Latest() == Some(f.Target())
       <==> && (f.Latest().Some? ==> Generation(f.At(f.Latest().value)) != UINT32_MAX)
            && (f.cover.AsWritten? ==> Parity(Image(f.cover, f.NextGeneration(), schema, payload, stack)) == 0)
  {
    var t := f.Target();
    TargetNotLatest(f);
    NextFollowsKept(f);
    if f.NextGeneration() != 0 {
      CutWrite(f, payload, schema, stack, WRITE_STEPS);
    } else {
      WrappedWrite(f, payload, schema, stack);
    }
  }

  lemma WrappedWrite(f: Flash, payload: seq<byte>, schema: uint32, stack: Slot)
    requires 0 < |payload| <= MAX_PAYLOAD && f.NextGeneration() == 0
    ensures f.AfterWrite(payload, schema, stack, WRITE_STEPS).Latest() == Some(Other(f.Target()))
  {
    var t, image := f.Target(), Image(f.cover, 0, schema, payload, stack);
    NextFollowsKept(f);
    ImageFields(f.cover, 0, schema, payload, stack);
    WrittenSides(f, t, image, WRITE_STEPS);
    NewerIsLatest(f.AfterWrite(payload, schema, stack, WRITE_STEPS), Other(t));
  }

  // ---- runs -----------------------------------------------------------------------

  /** A write request whose power lasts `steps` steps, the test hook that increments
      the checksum of the latest slot, likewise, or a wipe of `steps` erases. */
  datatype Op =
    | Write(payload: seq<byte>, schema: uint32, stack: Slot, steps: nat)
    | Corrupt(steps: nat)
    | Wipe(steps: nat)

  /** Requests of the wrong size are refused before anything is erased. */
  predicate Accepted(op: Op) { op.Write? && 0 < |op.payload| <= MAX_PAYLOAD }

  function Apply(f: Flash, op: Op): Flash {
    match op
    case Write(payload, schema, stack, steps) =>
      if Accepted(op) then f.AfterWrite(payload, schema, stack, steps) else f
    case Corrupt(steps) => f.AfterCorrupt(steps)
    case Wipe(steps) => f.AfterWipe(steps)
  }

  function Run(f: Flash, ops: seq<Op>): Flash
    decreases |ops|
  {
    if ops == [] then f else Apply(Run(f, ops[..|ops| - 1]), ops[|ops| - 1])
  }

  /** Generations in use never exceed `n`. */
  ghost predicate GenerationsUpTo(f: Flash, n: nat) {
    (f.Valid(A) ==> Generation(f.a) <= n) && (f.Valid(B) ==> Generation(f.b) <= n)
  }

  /** Two valid slots are one generation apart. */
  ghost predicate Adjacent(f: Flash) {
    f.Valid(A) && f.Valid(B) ==>
      Generation(f.a) == Generation(f.b) + 1 || Generation(f.b) == Generation(f.a) + 1
  }

  lemma ErasedIsInvalid(s: Slot, cover: Cover)
    requires forall i :: 0 <= i < SLOT_SIZE ==> s[i] == 255
    ensures !IsValid(s, cover)
  {
    FromLeOfOnes(s[LENGTH_AT..LENGTH_AT + 4]);
    LimitOf4();
  }

  lemma BlankIsEmpty(cover: Cover)
    ensures !Blank(cover).Valid(A) && !Blank(cover).Valid(B)
  {
    ErasedIsInvalid(Blank(cover).a, cover);
  }

  /** A wipe erases the first slot and then the second, byte by byte. Completed, it
      leaves nothing to read in any buffer, and the next record is the first again. */
  lemma WipeErases(f: Flash, steps: nat)
    ensures var f' := f.AfterWipe(steps);
      && f'.cover == f.cover
      && f'.erasesA == f.erasesA + (if steps >= 1 then 1 else 0)
      && f'.erasesB == f.erasesB + (if steps >= 2 then 1 else 0)
      && (if steps >= 1 then !f'.Valid(A) && forall i :: 0 <= i < SLOT_SIZE ==> f'.a[i] == 255 else f'.a == f.a)
      && (if steps >= 2 then !f'.Valid(B) && forall i :: 0 <= i < SLOT_SIZE ==> f'.b[i] == 255 else f'.b == f.b)
      && (steps >= 2 ==> f'.NextGeneration() == 1 && forall capacity: nat :: f'.Read(capacity) == None)
  {
    var f' := f.AfterWipe(steps);
    if steps >= 1 {
      ErasedIsInvalid(f'.a, f.cover);
    }
    if steps >= 2 {
      ErasedIsInvalid(f'.b, f.cover);
    }
  }

  lemma NextUpTo(f: Flash, n: nat)
    requires GenerationsUpTo(f, n) && n < UINT32_MAX
    ensures 0 < f.NextGeneration() <= n + 1
  {
    NextFollowsKept(f);
  }

  lemma WriteKeepsDiscipline(f: Flash, op: Op, n: nat)
    requires Accepted(op) && Adjacent(f) && GenerationsUpTo(f, n) && n < UINT32_MAX
    ensures Adjacent(Apply(f, op)) && GenerationsUpTo(Apply(f, op), n + 1) && Apply(f, op).cover == f.cover
  {
    NextUpTo(f, n);
    NextFollowsKept(f);
    TargetNotLatest(f);
    CutWrite(f, op.payload, op.schema, op.stack, op.steps);
    AdjacentBySides(f, Apply(f, op), f.Target(), n);
  }

  /** The discipline after a write, from what it did to the two sides. */
  lemma AdjacentBySides(f: Flash, f': Flash, t: Side, n: nat)
    requires Adjacent(f) && GenerationsUpTo(f, n)
    requires f'.At(Other(t)) == f.At(Other(t)) && f'.cover == f.cover
    requires f' == f || !f'.Valid(t) ||
      (Generation(f'.At(t)) <= n + 1 &&
       (f.Valid(Other(t)) ==> Generation(f'.At(t)) == Generation(f.At(Other(t))) + 1))
    ensures Adjacent(f') && GenerationsUpTo(f', n + 1)
  {
  }

  /** Does a slot survive the increment of its checksum, cut after `steps`? Under the
      checksum that was meant only if the cut leaves an erased byte where that very
      value belongs; as it is written always, once the checksum word is in. */
  predicate Survives(cover: Cover, s: Slot, steps: nat) {
    if cover.HeaderWords? then steps == 4 && s[CRC_AT] == 255
    else steps >= 5 || (steps == 4 && Crc8(s[..CRC_AT]) == 0)
  }

  lemma BumpedFields(s: Slot)
    ensures var image: Slot := s[CRC_AT := Bumped(s[CRC_AT])];
      && image[..CRC_AT] == s[..CRC_AT] && image[CRC_AT] != s[CRC_AT]
      && Generation(image) == Generation(s) && Length(image) == Length(s) && Parity(image) == Parity(s)
  {
    var image: Slot := s[CRC_AT := Bumped(s[CRC_AT])];
    assert image[..CRC_AT] == s[..CRC_AT];
    assert image[LENGTH_AT..LENGTH_AT + 4] == s[LENGTH_AT..LENGTH_AT + 4] && image[0..4] == s[0..4];
  }

  /** The bytes of a slot after its checksum is incremented, cut anywhere. */
  lemma BumpedValid(cover: Cover, s: Slot, steps: nat)
    requires IsValid(s, cover) && steps >= 1
    ensures var s' := AfterSteps(s, s[CRC_AT := Bumped(s[CRC_AT])], steps);
      && (IsValid(s', cover) <==> Survives(cover, s, steps))
      && (IsValid(s', cover) ==> Generation(s') == Generation(s))
  {
    var image: Slot := s[CRC_AT := Bumped(s[CRC_AT])];
    BumpedFields(s);
    CutHeader(s, image, steps);
    AsWrittenChecksParity(s);
    if cover.AsWritten? {
      CutValid(cover, s, image, steps);
    } else if steps >= 5 {
      var s' := AfterSteps(s, image, steps);
      assert s'[CRC_AT] == s'[CRC_AT..HEADER_SIZE][0] == image[CRC_AT..HEADER_SIZE][0];
    }
  }

  /** A completed corruption adds one to the checksum byte of the record in use, in eight
      bits, and changes no other byte of either slot. */
  lemma CorruptBumps(f: Flash, i: nat)
    requires f.Latest().Some? && i < SLOT_SIZE
    ensures var side, f' := f.Latest().value, f.AfterCorrupt(WRITE_STEPS);
      && f'.At(Other(side)) == f.At(Other(side))
      && f'.At(side)[i] as int == if i == CRC_AT then (f.At(side)[i] as int + 1) % 256 else f.At(side)[i]
  {
  }

  /** What the corruption leaves of the two slots. */
  lemma CorruptedSlot(f: Flash, steps: nat)
    requires f.Latest().Some? && steps >= 1
    ensures var side, f' := f.Latest().value, f.AfterCorrupt(steps);
      && f'.At(Other(side)) == f.At(Other(side)) && f'.cover == f.cover && f.Valid(side)
      && (f'.Valid(side) <==> Survives(f.cover, f.At(side), steps))
      && (f'.Valid(side) ==> Generation(f'.At(side)) == Generation(f.At(side)))
  {
    var side := f.Latest().value;
    var s := f.At(side);
    assert f.Valid(side);
    WrittenSides(f, side, s[CRC_AT := Bumped(s[CRC_AT])], steps);
    BumpedValid(f.cover, s, steps);
  }

  lemma {:induction false} RunKeepsDiscipline(cover: Cover, ops: seq<Op>)
    requires |ops| < UINT32_MAX
    ensures var f := Run(Blank(cover), ops);
      Adjacent(f) && GenerationsUpTo(f, |ops|) && f.cover == cover
    decreases |ops|
  {
    if ops == [] {
      BlankIsEmpty(cover);
    } else {
      var f, op := Run(Blank(cover), ops[..|ops| - 1]), ops[|ops| - 1];
      RunKeepsDiscipline(cover, ops[..|ops| - 1]);
      StepKeepsDiscipline(f, op, |ops| - 1);
    }
  }

  lemma StepKeepsDiscipline(f: Flash, op: Op, n: nat)
    requires Adjacent(f) && GenerationsUpTo(f, n) && n < UINT32_MAX
    ensures Adjacent(Apply(f, op)) && GenerationsUpTo(Apply(f, op), n + 1) && Apply(f, op).cover == f.cover
  {
    if Accepted(op) {
      WriteKeepsDiscipline(f, op, n);
    } else if op.Wipe? {
      WipeErases(f, op.steps);
    } else if op.Corrupt? && f.Latest().Some? && op.steps >= 1 {
      CorruptedSlot(f, op.steps);
    }
  }

  /** In every state that writes, corruptions and wipes, cut anywhere, can reach from
      erased flash: two valid slots are exactly one generation apart, the next
      write erases a slot that is not in use, and the slot in use survives every
      step of that write. */
  lemma SlotDiscipline(cover: Cover, ops: seq<Op>, payload: seq<byte>, schema: uint32, stack: Slot, steps: nat)
    requires |ops| < UINT32_MAX && 0 < |payload| <= MAX_PAYLOAD
    ensures var f := Run(Blank(cover), ops);
      && Adjacent(f)
      && f.Latest() != Some(f.Target())
      && (f.Latest().Some? ==>
            f.AfterWrite(payload, schema, stack, steps).At(f.Latest().value) == f.At(f.Latest().value))
  {
    var f := Run(Blank(cover), ops);
    RunKeepsDiscipline(cover, ops);
    TargetNotLatest(f);
    WrittenSides(f, f.Target(), Image(f.cover, f.NextGeneration(), schema, payload, stack), steps);
  }

  /** With two records stored, corrupting the latest makes the earlier one readable
      exactly when the latest does not survive it. */
  lemma CorruptRevealsIff(f: Flash, steps: nat)
    requires f.Valid(A) && f.Valid(B) && steps >= 1
    ensures f.AfterCorrupt(steps).Latest() == Some(Other(f.Latest().value))
       <==> !Survives(f.cover, f.At(f.Latest().value), steps)
    ensures f.AfterCorrupt(steps).At(Other(f.Latest().value)) == f.At(Other(f.Latest().value))
  {
    CorruptedSlot(f, steps);
    var side, f' := f.Latest().value, f.AfterCorrupt(steps);
    if f'.Valid(side) {
      LatestByGenerations(f, f');
    }
  }

  lemma SurvivorStaysLatest(f: Flash, steps: nat)
    requires f.Latest().Some? && steps >= 1 && Survives(f.cover, f.At(f.Latest().value), steps)
    ensures f.AfterCorrupt(steps).Latest() == f.Latest()
  {
    CorruptedSlot(f, steps);
    if f.Valid(A) && f.Valid(B) {
      LatestByGenerations(f, f.AfterCorrupt(steps));
    }
  }

  lemma LatestByGenerations(f: Flash, f': Flash)
    requires f.Valid(A) && f.Valid(B) && f'.Valid(A) && f'.Valid(B)
    requires Generation(f'.a) == Generation(f.a) && Generation(f'.b) == Generation(f.b)
    ensures f'.Latest() == f.Latest()
  {
  }

  // ---- recovery ---------------------------------------------------------------------

  /** What two slots amount to: how many writes took effect, and the last one's record. */
  datatype Log = Log(effective: nat, last: Option<(seq<byte>, uint32)>) {
    function Add(record: (seq<byte>, uint32)): Log { Log(effective + 1, Some(record)) }
  }

  /** Would a write take effect under this generation? */
  predicate EffectiveAs(cover: Cover, generation: uint32, op: Op) {
    Accepted(op) && Commits(cover, Image(cover, generation, op.schema, op.payload, op.stack), op.steps)
  }

  /** A write takes effect by its own image, whose generation counts the effective
      writes before it. */
  predicate TakesEffect(cover: Cover, log: Log, op: Op) {
    log.effective < UINT32_MAX && EffectiveAs(cover, log.effective + 1, op)
  }

  function Logged(cover: Cover, log: Log, op: Op): Log {
    if TakesEffect(cover, log, op) then log.Add((Torn(op.payload, op.steps), op.schema)) else log
  }

  /** The log of a run of writes, each cut anywhere, without any flash. */
  function LogOf(cover: Cover, ops: seq<Op>): (log: Log)
    ensures log.effective <= |ops|
    decreases |ops|
  {
    if ops == [] then Log(0, None) else Logged(cover, LogOf(cover, ops[..|ops| - 1]), ops[|ops| - 1])
  }

  ghost predicate ShowsLog(f: Flash, log: Log) {
    f.Read(MAX_PAYLOAD) == log.last && f.NextGeneration() == log.effective + 1
  }

  /** From erased flash, over every run of writes, each completed or cut at any step,
      and under either checksum: a reader gets exactly the last record of the log. */
  lemma {:induction false} ReadsLog(cover: Cover, ops: seq<Op>)
    requires |ops| < UINT32_MAX
    requires forall i :: 0 <= i < |ops| ==> ops[i].Write?
    ensures ShowsLog(Run(Blank(cover), ops), LogOf(cover, ops))
    decreases |ops|
  {
    if ops == [] {
      BlankIsEmpty(cover);
    } else {
      var before, op := ops[..|ops| - 1], ops[|ops| - 1];
      ReadsLog(cover, before);
      RunKeepsDiscipline(cover, before);
      WriteIsLogged(Run(Blank(cover), before), op, LogOf(cover, before));
    }
  }

  lemma WriteIsLogged(f: Flash, op: Op, log: Log)
    requires op.Write? && ShowsLog(f, log) && log.effective + 1 < UINT32_MAX
    ensures ShowsLog(Apply(f, op), Logged(f.cover, log, op))
  {
    if Accepted(op) {
      var generation := f.NextGeneration();
      WriteReads(f, op);
      WriteAdvances(f, op);
      LoggedAs(f.cover, log, op, generation);
      LogAdvances(f, Apply(f, op), log, (Torn(op.payload, op.steps), op.schema), EffectiveAs(f.cover, generation, op));
    }
  }

  lemma LoggedAs(cover: Cover, log: Log, op: Op, generation: uint32)
    requires op.Write? && generation == log.effective + 1
    ensures Logged(cover, log, op)
         == if EffectiveAs(cover, generation, op) then log.Add((Torn(op.payload, op.steps), op.schema)) else log
  {
  }

  lemma LogAdvances(f: Flash, f': Flash, log: Log, record: (seq<byte>, uint32), effective: bool)
    requires ShowsLog(f, log)
    requires f'.Read(MAX_PAYLOAD) == if effective then Some(record) else f.Read(MAX_PAYLOAD)
    requires f'.NextGeneration() == f.NextGeneration() + if effective then 1 else 0
    ensures ShowsLog(f', if effective then log.Add(record) else log)
  {
  }

  lemma WriteReads(f: Flash, op: Op)
    requires Accepted(op) && f.NextGeneration() != 0
    ensures Apply(f, op).Read(MAX_PAYLOAD)
         == if EffectiveAs(f.cover, f.NextGeneration(), op) then Some((Torn(op.payload, op.steps), op.schema))
            else f.Read(MAX_PAYLOAD)
  {
    CutRead(f, op.payload, op.schema, op.stack, op.steps, MAX_PAYLOAD);
  }

  lemma WriteAdvances(f: Flash, op: Op)
    requires Accepted(op) && 0 < f.NextGeneration() < UINT32_MAX
    ensures Apply(f, op).NextGeneration()
         == f.NextGeneration() + if EffectiveAs(f.cover, f.NextGeneration(), op) then 1 else 0
  {
    CutWrite(f, op.payload, op.schema, op.stack, op.steps);
    NextAdvances(f, Apply(f, op), EffectiveAs(f.cover, f.NextGeneration(), op));
  }

  lemma NextAdvances(f: Flash, f': Flash, effective: bool)
    requires 0 < f.NextGeneration() < UINT32_MAX
    requires f'.At(Other(f.Target())) == f.At(Other(f.Target())) && f'.cover == f.cover
    requires if effective then f'.Latest() == Some(f.Target()) && Generation(f'.At(f.Target())) == f.NextGeneration()
             else f'.Latest() == f.Latest()
    ensures f'.NextGeneration() == f.NextGeneration() + if effective then 1 else 0
  {
    NextFollowsLatest(f);
    NextFollowsLatest(f');
    if !effective {
      LatestIsKept(f);
    }
  }

  lemma LatestIsKept(f: Flash)
    ensures f.Latest() in {None, Some(Other(f.Target()))}
  {
    TargetNotLatest(f);
  }

  /** The next generation follows the one in use. */
  lemma NextFollowsLatest(f: Flash)
    ensures f.NextGeneration()
         == if f.Latest().None? then 1
            else if Generation(f.At(f.Latest().value)) == UINT32_MAX then 0
            else Generation(f.At(f.Latest().value)) + 1
  {
    TargetNotLatest(f);
    NextFollowsKept(f);
  }

  /** A record and the side of the flash it is on. */
  datatype Stored = Stored(side: Side, slot: Slot)

  /** What two slots amount to under corruption and wipes too: the records they hold, at
      most two, the one in use last. */
  function Records(f: Flash): seq<Stored> {
    if f.Latest().None? then []
    else
      var side := f.Latest().value;
      (if f.Valid(Other(side)) then [Stored(Other(side), f.At(Other(side)))] else []) + [Stored(side, f.At(side))]
  }

  /** The record in use, as a reader gets it. */
  function ReadLast(rs: seq<Stored>, capacity: nat): Option<(seq<byte>, uint32)> {
    if rs == [] then None
    else
      var s := rs[|rs| - 1].slot;
      if Length(s) > capacity || Length(s) > MAX_PAYLOAD then None else Some((Payload(s), Schema(s)))
  }

  function Without(rs: seq<Stored>, side: Side): seq<Stored> {
    if rs == [] then [] else (if rs[0].side == side then [] else [rs[0]]) + Without(rs[1..], side)
  }

  /** The same operations on the records alone: a write keeps the record in use, adds
      its own on the other side if it commits, and costs the one before; a corruption
      rewrites the record in use or drops it; a wipe drops first one side, then all. */
  function OnRecords(cover: Cover, rs: seq<Stored>, op: Op): seq<Stored> {
    if op.steps == 0 then rs
    else match op
      case Write(payload, schema, stack, steps) =>
        if !Accepted(op) then rs
        else
          var kept := if rs == [] then [] else [rs[|rs| - 1]];
          var side := if rs == [] then A else Other(rs[|rs| - 1].side);
          var generation := if rs == [] then 1 else Wrap32(Generation(rs[|rs| - 1].slot) + 1);
          var image := Image(cover, generation, schema, payload, stack);
          if Commits(cover, image, steps) then kept + [Stored(side, AfterSteps(image, image, steps))] else kept
      case Corrupt(steps) =>
        if rs == [] then rs
        else
          var s := rs[|rs| - 1].slot;
          if Survives(cover, s, steps) then
            rs[|rs| - 1 := Stored(rs[|rs| - 1].side, AfterSteps(s, s[CRC_AT := Bumped(s[CRC_AT])], steps))]
          else rs[..|rs| - 1]
      case Wipe(steps) => if steps >= 2 then [] else Without(rs, A)
  }

  function RecordsOf(cover: Cover, ops: seq<Op>): seq<Stored>
    decreases |ops|
  {
    if ops == [] then [] else OnRecords(cover, RecordsOf(cover, ops[..|ops| - 1]), ops[|ops| - 1])
  }

  lemma ReadIsLast(f: Flash, capacity: nat)
    ensures f.Read(capacity) == ReadLast(Records(f), capacity)
  {
  }

  lemma NextOfRecords(f: Flash)
    ensures var rs := Records(f);
      && f.NextGeneration() == (if rs == [] then 1 else Wrap32(Generation(rs[|rs| - 1].slot) + 1))
      && f.Target() == (if rs == [] then A else Other(rs[|rs| - 1].side))
  {
    NextFollowsLatest(f);
    TargetNotLatest(f);
  }

  /** The records after a write, from what it did to the two sides. */
  lemma RecordsAfterWrite(f: Flash, f': Flash, effective: bool)
    requires f'.At(Other(f.Target())) == f.At(Other(f.Target())) && f'.cover == f.cover
    requires if effective then f'.Latest() == Some(f.Target())
             else f'.Latest() == f.Latest() && !f'.Valid(f.Target())
    ensures var rs := Records(f);
      var kept := if rs == [] then [] else [rs[|rs| - 1]];
      Records(f') == if effective then kept + [Stored(f.Target(), f'.At(f.Target()))] else kept
  {
    TargetNotLatest(f);
  }

  lemma WriteOnRecords(f: Flash, op: Op)
    requires Accepted(op) && op.steps >= 1 && f.NextGeneration() != 0
    ensures Records(Apply(f, op)) == OnRecords(f.cover, Records(f), op)
  {
    var image := Image(f.cover, f.NextGeneration(), op.schema, op.payload, op.stack);
    NextOfRecords(f);
    CutWrite(f, op.payload, op.schema, op.stack, op.steps);
    RecordsAfterWrite(f, Apply(f, op), Commits(f.cover, image, op.steps));
    WrittenSides(f, f.Target(), image, op.steps);
  }

  /** The records after a corruption, from what it did to the two sides. */
  lemma RecordsAfterCorrupt(f: Flash, f': Flash, side: Side, survives: bool)
    requires f.Latest() == Some(side) && f.Valid(side)
    requires f'.At(Other(side)) == f.At(Other(side)) && f'.cover == f.cover
    requires if survives then f'.Latest() == Some(side) else !f'.Valid(side)
    ensures var rs := Records(f);
      Records(f') == if survives then rs[|rs| - 1 := Stored(side, f'.At(side))] else rs[..|rs| - 1]
  {
  }

  lemma CorruptOnRecords(f: Flash, steps: nat)
    requires f.Latest().Some? && steps >= 1
    ensures Records(f.AfterCorrupt(steps)) == OnRecords(f.cover, Records(f), Corrupt(steps))
  {
    var side := f.Latest().value;
    var s := f.At(side);
    CorruptedSlot(f, steps);
    WrittenSides(f, side, s[CRC_AT := Bumped(s[CRC_AT])], steps);
    if Survives(f.cover, s, steps) {
      SurvivorStaysLatest(f, steps);
    }
    RecordsAfterCorrupt(f, f.AfterCorrupt(steps), side, Survives(f.cover, s, steps));
  }

  lemma WithoutOfTwo(r: Stored, r': Stored, side: Side)
    ensures Without([r], side) == if r.side == side then [] else [r]
    ensures Without([r, r'], side) == Without([r], side) + Without([r'], side)
  {
    assert [r][1..] == [] && [r, r'][1..] == [r'];
  }

  /** The records after the first slot is erased. */
  lemma RecordsAfterErase(f: Flash, f': Flash)
    requires f'.cover == f.cover && !f'.Valid(A) && f'.b == f.b
    ensures Records(f') == Without(Records(f), A)
  {
    WithoutOfTwo(Stored(A, f.a), Stored(B, f.b), A);
    WithoutOfTwo(Stored(B, f.b), Stored(A, f.a), A);
  }

  lemma WipeOnRecords(f: Flash, steps: nat)
    requires steps >= 1
    ensures Records(f.AfterWipe(steps)) == OnRecords(f.cover, Records(f), Wipe(steps))
  {
    WipeErases(f, steps);
    if steps == 1 {
      RecordsAfterErase(f, f.AfterWipe(steps));
    }
  }

  /** From erased flash, over every run of writes, corruptions and wipes, each completed
      or cut at any step, and under either checksum: the two slots hold exactly the
      records of that run, and a reader gets the last one. */
  lemma {:induction false} HoldsRecords(cover: Cover, ops: seq<Op>, capacity: nat)
    requires |ops| < UINT32_MAX
    ensures var f := Run(Blank(cover), ops);
      Records(f) == RecordsOf(cover, ops) && f.Read(capacity) == ReadLast(RecordsOf(cover, ops), capacity)
    decreases |ops|
  {
    if ops == [] {
      BlankIsEmpty(cover);
    } else {
      var before, op := ops[..|ops| - 1], ops[|ops| - 1];
      var f := Run(Blank(cover), before);
      HoldsRecords(cover, before, capacity);
      RunKeepsDiscipline(cover, before);
      NextUpTo(f, |before|);
      OpOnRecords(f, op);
    }
    ReadIsLast(Run(Blank(cover), ops), capacity);
  }

  lemma OpOnRecords(f: Flash, op: Op)
    requires f.NextGeneration() != 0
    ensures Records(Apply(f, op)) == OnRecords(f.cover, Records(f), op)
  {
    if op.steps >= 1 {
      if Accepted(op) {
        WriteOnRecords(f, op);
      } else if op.Wipe? {
        WipeOnRecords(f, op.steps);
      } else if op.Corrupt? && f.Latest().Some? {
        CorruptOnRecords(f, op.steps);
      }
    }
  }

  /** A write request that either fails before its length word or gets past its payload. */
  predicate Clean(op: Op) {
    op.Write? && (Accepted(op) ==> op.steps <= 3 || PastPayload(|op.payload|, op.steps))
  }

  /** The last record whose write got past its payload. */
  function LastStored(ops: seq<Op>): Option<(seq<byte>, uint32)>
    decreases |ops|
  {
    if ops == [] then None
    else
      var op := ops[|ops| - 1];
      if Accepted(op) && PastPayload(|op.payload|, op.steps) then Some((op.payload, op.schema))
      else LastStored(ops[..|ops| - 1])
  }

  lemma {:induction false} CleanLog(ops: seq<Op>)
    requires |ops| < UINT32_MAX
    requires forall i :: 0 <= i < |ops| ==> Clean(ops[i])
    ensures LogOf(HeaderWords, ops).last == LastStored(ops)
    decreases |ops|
  {
    if ops != [] {
      CleanLog(ops[..|ops| - 1]);
      TornIsWholeIff(ops[|ops| - 1].payload, ops[|ops| - 1].steps);
    }
  }

  /** When every write is of that kind, a reader under the checksum that was meant
      always gets exactly the last record that got past its payload. */
  lemma Recovery(ops: seq<Op>)
    requires |ops| < UINT32_MAX
    requires forall i :: 0 <= i < |ops| ==> Clean(ops[i])
    ensures Run(Blank(HeaderWords), ops).Read(MAX_PAYLOAD) == LastStored(ops)
  {
    ReadsLog(HeaderWords, ops);
    CleanLog(ops);
  }

  // ---- the checksum as written ----------------------------------------------------------

  /** The first write on erased flash, completed, is readable exactly when the words
      one, schema and length cancel out with the padding the stack happened to hold. */
  lemma FirstWriteReadableIff(payload: seq<byte>, schema: uint32, stack: Slot)
    requires 0 < |payload| <= MAX_PAYLOAD
    ensures Blank(AsWritten).AfterWrite(payload, schema, stack, WRITE_STEPS).Read(MAX_PAYLOAD)
         == if Parity(Image(AsWritten, 1, schema, payload, stack)) == 0 then Some((payload, schema)) else None
  {
    BlankIsEmpty(AsWritten);
    CutRead(Blank(AsWritten), payload, schema, stack, WRITE_STEPS, MAX_PAYLOAD);
    TornIsWholeIff(payload, WRITE_STEPS);
  }

  /** One such write that is lost: schema one, one byte, and zeroed padding. */
  lemma FirstWriteLost(value: byte, stack: Slot)
    requires stack[CRC_AT + 1] == stack[CRC_AT + 2] == 0
    ensures Blank(AsWritten).AfterWrite([value], 1, stack, WRITE_STEPS).Read(MAX_PAYLOAD) == None
    ensures Blank(HeaderWords).AfterWrite([value], 1, stack, WRITE_STEPS).Read(MAX_PAYLOAD) == Some(([value], 1))
  {
    FirstWriteReadableIff([value], 1, stack);
    ParityOfBytes(1, 1, value, stack);
    SmallSums();
    BlankIsEmpty(HeaderWords);
    CutRead(Blank(HeaderWords), [value], 1, stack, WRITE_STEPS, MAX_PAYLOAD);
    TornIsWholeIff([value], WRITE_STEPS);
  }

  lemma ByteInWord(n: byte)
    ensures Le32(n) == [n, 0, 0, 0]
  {
    assert ToLe(0, 3) == [0, 0, 0];
  }

  lemma CrcOfByteWord(s: Slot, at: nat, n: byte)
    requires at + 4 <= SLOT_SIZE && s[at..at + 4] == [n, 0, 0, 0]
    ensures Crc8(s[..at + 4]) == Xor(Crc8(s[..at]), n)
  {
    var w := s[at..at + 4];
    assert s[at] == w[0] && s[at + 1] == w[1] && s[at + 2] == w[2] && s[at + 3] == w[3];
    CrcSnoc(s, at);
    CrcSnoc(s, at + 1);
    CrcSnoc(s, at + 2);
    CrcSnoc(s, at + 3);
    XorZeroRight(Crc8(s[..at + 1]));
  }

  lemma ByteWords(generation: byte, schema: byte, value: byte, stack: Slot)
    ensures var s := Image(AsWritten, generation, schema, [value], stack);
      s[0..4] == [generation, 0, 0, 0] && s[4..8] == [schema, 0, 0, 0] && s[8..12] == [1, 0, 0, 0]
  {
    ByteInWord(generation);
    ByteInWord(schema);
    ByteInWord(1);
    var s, words := Image(AsWritten, generation, schema, [value], stack), Le32(generation) + Le32(schema) + Le32(1);
    assert s[0..4] == words[0..4] && s[4..8] == words[4..8] && s[8..12] == words[8..12];
  }

  /** What one byte under small numbers and zeroed padding adds up to. */
  lemma ParityOfBytes(generation: byte, schema: byte, value: byte, stack: Slot)
    requires stack[CRC_AT + 1] == stack[CRC_AT + 2] == 0
    ensures Parity(Image(AsWritten, generation, schema, [value], stack)) == Xor(Xor(generation, schema), 1)
  {
    var s := Image(AsWritten, generation, schema, [value], stack);
    ImageFields(AsWritten, generation, schema, [value], stack);
    ByteWords(generation, schema, value, stack);
    CrcOfByteWord(s, 0, generation);
    CrcOfByteWord(s, 4, schema);
    CrcOfByteWord(s, 8, 1);
    XorZero(generation);
    XorZeroRight(Crc8(s[..CRC_AT]));
  }

  lemma SmallSums()
    ensures Xor(Xor(1, 1), 1) == 1 && Xor(Xor(1, 0), 1) == 0 && Xor(Xor(2, 3), 1) == 0
  {
    assert XorBits(1, 1, 8) == 0 && XorBits(1, 0, 8) == 1 && XorBits(0, 1, 8) == 1;
    assert XorBits(2, 3, 8) == 1;
  }

  /** Two completed writes of one byte, under schemas zero and three. */
  function TwoWrites(value: byte, stack: Slot): seq<Op> {
    [Write([value], 0, stack, WRITE_STEPS), Write([value], 3, stack, WRITE_STEPS)]
  }

  /** A completed write beside a record in use leaves two records, itself in use. */
  lemma SecondRecord(f: Flash, op: Op)
    requires f.Latest() == Some(A) && f.NextGeneration() != 0
    requires op.steps >= 5 && EffectiveAs(f.cover, f.NextGeneration(), op)
    ensures var f' := Apply(f, op); f'.cover == f.cover && f'.Valid(A) && f'.Valid(B) && f'.Latest() == Some(B)
  {
    CutWrite(f, op.payload, op.schema, op.stack, op.steps);
    LatestIsKept(f);
  }

  lemma FirstRecord(cover: Cover, op: Op)
    requires op.steps >= 5 && EffectiveAs(cover, 1, op)
    ensures var f := Apply(Blank(cover), op); f.cover == cover && f.Latest() == Some(A) && f.NextGeneration() == 2
  {
    BlankIsEmpty(cover);
    CutWrite(Blank(cover), op.payload, op.schema, op.stack, op.steps);
    WriteAdvances(Blank(cover), op);
  }

  lemma SmallWritesCommit(cover: Cover, value: byte, stack: Slot)
    requires stack[CRC_AT + 1] == stack[CRC_AT + 2] == 0
    ensures EffectiveAs(cover, 1, TwoWrites(value, stack)[0]) && EffectiveAs(cover, 2, TwoWrites(value, stack)[1])
  {
    ParityOfBytes(1, 0, value, stack);
    ParityOfBytes(2, 3, value, stack);
    SmallSums();
  }

  lemma RunOfTwo(f: Flash, ops: seq<Op>)
    requires |ops| == 2
    ensures Run(f, ops) == Apply(Apply(f, ops[0]), ops[1])
  {
    var one := ops[..1];
    assert one[..0] == [] && Run(f, []) == f;
    assert Run(f, one) == Apply(f, ops[0]);
  }

  lemma TwoRecords(cover: Cover, value: byte, stack: Slot)
    requires stack[CRC_AT + 1] == stack[CRC_AT + 2] == 0
    ensures var f := Run(Blank(cover), TwoWrites(value, stack));
      f.cover == cover && f.Valid(A) && f.Valid(B) && f.Latest() == Some(B)
  {
    var ops := TwoWrites(value, stack);
    SmallWritesCommit(cover, value, stack);
    FirstRecord(cover, ops[0]);
    SecondRecord(Apply(Blank(cover), ops[0]), ops[1]);
    RunOfTwo(Blank(cover), ops);
  }

  /** With these two records the corruption, completed, makes the first one the latest
      under the checksum that was meant, and does nothing of the kind as it is written. */
  lemma CorruptionCorruptsNothing(value: byte, stack: Slot)
    requires stack[CRC_AT + 1] == stack[CRC_AT + 2] == 0
    ensures Run(Blank(AsWritten), TwoWrites(value, stack)).AfterCorrupt(WRITE_STEPS).Latest() == Some(B)
    ensures Run(Blank(HeaderWords), TwoWrites(value, stack)).AfterCorrupt(WRITE_STEPS).Latest() == Some(A)
  {
    TwoRecords(AsWritten, value, stack);
    TwoRecords(HeaderWords, value, stack);
    CorruptRevealsIff(Run(Blank(HeaderWords), TwoWrites(value, stack)), WRITE_STEPS);
    SurvivorStaysLatest(Run(Blank(AsWritten), TwoWrites(value, stack)), WRITE_STEPS);
  }
}
