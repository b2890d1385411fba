/** How evenly the two slots of the storage backend wear. */
module WearLaws {
  import opened Basics
  import opened Storage
  import opened StorageLaws

  ghost predicate EvenlyWorn(f: Flash) {
    match f.Latest()
    case None => f.erasesA == f.erasesB
    case Some(A) => f.erasesA == f.erasesB + 1 && f.Target() == B
    case Some(B) => f.erasesA == f.erasesB && f.Target() == A
  }

  /** Under the checksum that was meant, uninterrupted writes use the slots in turn:
      erase counts stay within one. */
  lemma {:induction false} WearStaysEven(ops: seq<Op>)
    requires |ops| < UINT32_MAX
    requires forall i :: 0 <= i < |ops| ==> ops[i].Write? && ops[i].steps >= WRITE_STEPS
    ensures var f := Run(Blank(HeaderWords), ops);
      EvenlyWorn(f) && f.erasesB <= f.erasesA <= f.erasesB + 1
    decreases |ops|
  {
    if ops == [] {
      BlankIsEmpty(HeaderWords);
    } else {
      var before, op := ops[..|ops| - 1], ops[|ops| - 1];
      WearStaysEven(before);
      if Accepted(op) {
        var f := Run(Blank(HeaderWords), before);
        RunKeepsDiscipline(HeaderWords, before);
        NextUpTo(f, |before|);
        CutWrite(f, op.payload, op.schema, op.stack, op.steps);
        TargetNotLatest(f);
        TargetNotLatest(Apply(f, op));
      }
    }
  }

  /** How far the first slot is ahead in erases. */
  function Lead(f: Flash): int { f.erasesA - f.erasesB }

  /** A write that gets as far as erasing a slot. */
  predicate Erases(op: Op) { Accepted(op) && op.steps >= 1 }

  /** A write erases its target, and the next one targets the other slot exactly when
      this one takes effect. */
  lemma WriteWears(f: Flash, op: Op)
    requires Erases(op) && f.NextGeneration() != 0
    ensures var f', t := Apply(f, op), f.Target();
      && Lead(f') == Lead(f) + (if t.A? then 1 else -1)
      && f'.Target() == if EffectiveAs(f.cover, f.NextGeneration(), op) then Other(t) else t
  {
    CutWrite(f, op.payload, op.schema, op.stack, op.steps);
    TargetMoves(f, Apply(f, op), EffectiveAs(f.cover, f.NextGeneration(), op));
  }

  lemma TargetMoves(f: Flash, f': Flash, effective: bool)
    requires f'.At(Other(f.Target())) == f.At(Other(f.Target())) && f'.cover == f.cover
    requires if effective then f'.Latest() == Some(f.Target()) else !f'.Valid(f.Target())
    ensures f'.Target() == if effective then Other(f.Target()) else f.Target()
  {
    if effective {
      TargetNotLatest(f');
    }
  }

  /** Which writes of a run take effect, by the log alone. */
  function EffectsOf(cover: Cover, ops: seq<Op>): seq<bool> {
    seq(|ops|, i requires 0 <= i < |ops| => TakesEffect(cover, LogOf(cover, ops[..i]), ops[i]))
  }

  /** How far the first slot is ahead, and whether it is the next target. */
  datatype Wear = Wear(lead: int, first: bool) {
    function After(effect: bool): Wear { Wear(lead + if first then 1 else -1, first != effect) }
  }

  /** The wear after `n` writes with these effects. */
  function WearOf(effects: seq<bool>, n: nat): Wear
    requires n <= |effects|
  {
    if n == 0 then Wear(0, true) else WearOf(effects, n - 1).After(effects[n - 1])
  }

  function WearOfFlash(f: Flash): Wear { Wear(Lead(f), f.Target().A?) }

  lemma WearAdvances(f: Flash, f': Flash, w: Wear, effect: bool)
    requires WearOfFlash(f) == w && Lead(f') == Lead(f) + (if f.Target().A? then 1 else -1)
    requires f'.Target() == if effect then Other(f.Target()) else f.Target()
    ensures WearOfFlash(f') == w.After(effect)
  {
  }

  lemma EffectByLog(cover: Cover, log: Log, op: Op, generation: uint32)
    requires generation == log.effective + 1
    ensures TakesEffect(cover, log, op) <==> EffectiveAs(cover, generation, op)
  {
  }

  lemma NextWears(f: Flash, op: Op, log: Log, w: Wear)
    requires Erases(op) && ShowsLog(f, log) && WearOfFlash(f) == w
    ensures WearOfFlash(Apply(f, op)) == w.After(TakesEffect(f.cover, log, op))
  {
    var generation := f.NextGeneration();
    WriteWears(f, op);
    EffectByLog(f.cover, log, op, generation);
    WearAdvances(f, Apply(f, op), w, EffectiveAs(f.cover, generation, op));
  }

  lemma BlankIsUnworn(cover: Cover)
    ensures WearOfFlash(Blank(cover)) == Wear(0, true)
  {
    BlankIsEmpty(cover);
  }

  /** The wear of a run, write by write. */
  function WearOfRun(cover: Cover, ops: seq<Op>): Wear
    decreases |ops|
  {
    if ops == [] then Wear(0, true)
    else
      var before, op := ops[..|ops| - 1], ops[|ops| - 1];
      WearOfRun(cover, before).After(TakesEffect(cover, LogOf(cover, before), op))
  }

  lemma {:induction false} RunWears(cover: Cover, ops: seq<Op>)
    requires |ops| < UINT32_MAX && forall i :: 0 <= i < |ops| ==> Erases(ops[i])
    ensures WearOfFlash(Run(Blank(cover), ops)) == WearOfRun(cover, ops)
    decreases |ops|
  {
    if ops == [] {
      BlankIsUnworn(cover);
    } else {
      var before, op := ops[..|ops| - 1], ops[|ops| - 1];
      RunWears(cover, before);
      RunKeepsDiscipline(cover, before);
      ReadsLog(cover, before);
      NextWears(Run(Blank(cover), before), op, LogOf(cover, before), WearOfRun(cover, before));
    }
  }

  lemma {:induction false} WearByEffects(cover: Cover, ops: seq<Op>, n: nat)
    requires n <= |ops|
    ensures WearOfRun(cover, ops[..n]) == WearOf(EffectsOf(cover, ops), n)
    decreases n
  {
    if n > 0 {
      WearByEffects(cover, ops, n - 1);
      assert ops[..n][..n - 1] == ops[..n - 1];
    }
  }

  /** The first, third, fifth ... of `n` writes takes effect, the last one excepted. */
  predicate OddOnesTakeEffect(effects: seq<bool>, n: nat)
    requires n <= |effects|
  {
    forall i :: 0 <= i < n - 1 && i % 2 == 0 ==> effects[i]
  }

  ghost predicate EvenThroughout(effects: seq<bool>, n: nat)
    requires n <= |effects|
  {
    forall k :: 0 <= k <= n ==> -1 <= WearOf(effects, k).lead <= 1
  }

  /** While wear is even: after an even number of writes the counts are equal, after an
      odd number the next write evens them out exactly if the last one took effect. */
  lemma {:induction false} EvenIff(effects: seq<bool>, n: nat)
    requires n <= |effects|
    ensures EvenThroughout(effects, n) <==> OddOnesTakeEffect(effects, n)
    ensures OddOnesTakeEffect(effects, n) ==>
      var w := WearOf(effects, n);
      if n % 2 == 0 then w.lead == 0 else w.lead in {-1, 1} && (w.lead == 1 <==> w.first != effects[n - 1])
    decreases n
  {
    if n > 0 {
      EvenIff(effects, n - 1);
      assert WearOf(effects, n) == WearOf(effects, n - 1).After(effects[n - 1]);
      assert EvenThroughout(effects, n) <==> EvenThroughout(effects, n - 1) && -1 <= WearOf(effects, n).lead <= 1;
    }
  }

  /** Over every run of accepted writes that reach the flash, completed or cut, and
      under either checksum: the erase counts stay within one of each other all along
      if and only if every odd-numbered write but the last takes effect. */
  lemma WearStaysEvenIff(cover: Cover, ops: seq<Op>)
    requires |ops| < UINT32_MAX && forall i :: 0 <= i < |ops| ==> Erases(ops[i])
    ensures (forall k :: 0 <= k <= |ops| ==> -1 <= Lead(Run(Blank(cover), ops[..k])) <= 1)
       <==> forall i :: 0 <= i < |ops| - 1 && i % 2 == 0 ==> EffectsOf(cover, ops)[i]
  {
    var effects := EffectsOf(cover, ops);
    forall k | 0 <= k <= |ops|
      ensures Lead(Run(Blank(cover), ops[..k])) == WearOf(effects, k).lead
    {
      RunWears(cover, ops[..k]);
      WearByEffects(cover, ops, k);
    }
    EvenIff(effects, |ops|);
  }

  /** Would this not be a readable first record under the checksum as written? */
  predicate Unreadable(op: Op) {
    Accepted(op) && op.steps >= WRITE_STEPS && Parity(Image(AsWritten, 1, op.schema, op.payload, op.stack)) != 0
  }

  lemma UnreadableIsLost(f: Flash, op: Op)
    requires f.cover == AsWritten && f.Latest() == None && Unreadable(op)
    ensures var f' := Apply(f, op);
      f'.cover == AsWritten && f'.Latest() == None && f'.erasesA == f.erasesA + 1 && f'.erasesB == f.erasesB
  {
    CutWrite(f, op.payload, op.schema, op.stack, op.steps);
  }

  /** A run of such writes, all completed, stores nothing and wears out one slot alone. */
  lemma {:induction false} UnreadableWearsOneSlot(ops: seq<Op>)
    requires forall i :: 0 <= i < |ops| ==> Unreadable(ops[i])
    ensures var f := Run(Blank(AsWritten), ops);
      f.Latest() == None && f.erasesA == |ops| && f.erasesB == 0 && f.cover == AsWritten
    decreases |ops|
  {
    if ops == [] {
      BlankIsEmpty(AsWritten);
    } else {
      UnreadableWearsOneSlot(ops[..|ops| - 1]);
      UnreadableIsLost(Run(Blank(AsWritten), ops[..|ops| - 1]), ops[|ops| - 1]);
    }
  }
}
