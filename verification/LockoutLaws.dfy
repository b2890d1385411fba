/** What every run of the state machine keeps: the quadratic price of wrong
    guesses, the wipe, the autolock, and the meaning of `unlocked`. */
module LockoutLaws {
  import opened Basics
  import opened CStrings
  import opened BrowserProtocol
  import opened StateMachine

  datatype Event =
    | Init
    | Tick
    | Tap
    | Hold
    | TryUnlock(pin: string)
    | SetPin(oldPin: string, newPin: string)
    | FillRequest(rec: Record, origin: string)
    | SaveRequest(rec: Record, policy: Policy)
    | ApplySettings(s: Settings)
    | SetVerifier(v: Option<seq<byte>>)
    | Lock

  function Step(m: Machine, e: Event, hash16: string -> seq<byte>): Machine {
    match e
    case Init => m.AfterInit()
    case Tick => m.AfterTick()
    case Tap => m.AfterTap()
    case Hold => m.AfterHold()
    case TryUnlock(pin) => m.AfterTryUnlock(pin, hash16)
    case SetPin(oldPin, newPin) => m.AfterSetPin(oldPin, newPin, hash16)
    case FillRequest(rec, origin) => m.AfterRequestFill(rec, origin)
    case SaveRequest(rec, policy) => m.AfterRequestSave(rec, policy)
    case ApplySettings(s) => m.AfterApplySettings(s)
    case SetVerifier(v) => m.(verifier := v)
    case Lock => m.WithReset()
  }

  function Run(m: Machine, events: seq<Event>, hash16: string -> seq<byte>): Machine
    decreases |events|
  {
    if events == [] then m else Run(Step(m, events[0], hash16), events[1..], hash16)
  }

  lemma {:induction false} RunAppend(m: Machine, xs: seq<Event>, ys: seq<Event>, hash16: string -> seq<byte>)
    ensures Run(m, xs + ys, hash16) == Run(Run(m, xs, hash16), ys, hash16)
    decreases |xs|
  {
    if xs == [] {
      assert xs + ys == ys;
    } else {
      assert (xs + ys)[1..] == xs[1..] + ys;
      RunAppend(Step(m, xs[0], hash16), xs[1..], ys, hash16);
    }
  }

  // ---- what the lock flags mean -------------------------------------------

  /** `unlocked` says the same as the state, and LOCKED_OUT lasts exactly as
      long as the device is wiped or has ticks left to wait. */
  predicate Coherent(ctx: Context) {
    && (ctx.unlocked <==> ctx.state !in {Locked, LockedOut})
    && (ctx.state.LockedOut? <==> ctx.wiped || ctx.lockoutTicks > 0)
  }

  lemma TryUnlockKeepsCoherent(m: Machine, pin: string, hash16: string -> seq<byte>)
    requires Coherent(m.ctx)
    ensures Coherent(m.AfterTryUnlock(pin, hash16).ctx)
  {
    // The lockout is an odd number of ticks, so it stays odd, and positive, modulo 2^32.
    var exceeded := Wrap32(m.ctx.failedAttempts + 1) - m.settings.pinAttemptLimit;
    var ticks := LOCKOUT_TICKS_BASE + exceeded * LOCKOUT_TICKS_STEP;
    assert ticks % 2 == 1 && Wrap32(ticks) % 2 == 1;
  }

  /** Every run keeps `Coherent`, whatever the settings become on the way. */
  lemma {:induction false} RunKeepsCoherent(m: Machine, events: seq<Event>, hash16: string -> seq<byte>)
    requires Coherent(m.ctx)
    ensures Coherent(Run(m, events, hash16).ctx)
    decreases |events|
  {
    if events != [] {
      if events[0].TryUnlock? {
        TryUnlockKeepsCoherent(m, events[0].pin, hash16);
      }
      RunKeepsCoherent(Step(m, events[0], hash16), events[1..], hash16);
    }
  }

  // ---- what a guess decides --------------------------------------------------

  /** A guess on a machine that is not wiped, has a verifier and is not waiting out a
      lockout unlocks it if and only if it is five digits that hash to the verifier.
      Unlocked means unlocked afresh: nothing owed, nothing on record, not idle. */
  lemma GuessUnlocksIff(m: Machine, pin: string, hash16: string -> seq<byte>)
    requires !m.ctx.wiped && m.verifier.Some? && !(m.ctx.state.LockedOut? && m.ctx.lockoutTicks > 0)
    ensures var m' := m.AfterTryUnlock(pin, hash16);
      && (m'.ctx.unlocked
          <==> |pin| == 5 && (forall i :: 0 <= i < 5 ==> '0' <= pin[i] <= '9') && m.verifier == Some(hash16(pin)))
      && (m'.ctx.unlocked ==>
            && m'.ctx.state == Unlocked && !m'.ctx.wiped
            && m'.ctx.failedAttempts == m'.ctx.lockoutTicks == m'.ctx.inactivity == 0)
      && (!m'.ctx.unlocked ==>
            && m'.ctx.state in {Locked, LockedOut}
            && m'.ctx.failedAttempts == Wrap32(m.ctx.failedAttempts + 1))
      && m'.verifier == m.verifier && m'.settings == m.settings && m'.ctx.selected == m.ctx.selected
  {
  }

  /** Any other machine refuses the guess without looking at it. */
  lemma GuessIgnored(m: Machine, pin: string, hash16: string -> seq<byte>)
    requires m.ctx.wiped || m.verifier.None? || (m.ctx.state.LockedOut? && m.ctx.lockoutTicks > 0)
    ensures m.AfterTryUnlock(pin, hash16) == m
  {
  }

  /** A wrong guess wipes the device if and only if the wipe is on and ten are on record,
      and else starts a lockout if and only if the limit is reached. */
  lemma WrongGuessIff(m: Machine, pin: string, hash16: string -> seq<byte>)
    requires m.GuessTaken() && !m.AfterTryUnlock(pin, hash16).ctx.unlocked
    ensures var m', n := m.AfterTryUnlock(pin, hash16), Wrap32(m.ctx.failedAttempts + 1);
      && (m'.ctx.wiped <==> m.settings.wipeOnLockout && n >= 10)
      && (m'.ctx.state.LockedOut? <==> m'.ctx.wiped || n >= m.settings.pinAttemptLimit || m.ctx.state.LockedOut?)
      && m'.ctx.lockoutTicks
         == if m'.ctx.wiped then 0
            else if n < m.settings.pinAttemptLimit then m.ctx.lockoutTicks
            else Wrap32(2 * (n - m.settings.pinAttemptLimit) + 3)
  {
  }

  /** A lock ends the session and nothing else: a lockout or a wipe stays in force. */
  lemma LockEndsSession(m: Machine)
    ensures var m' := m.WithReset();
      && !m'.ctx.unlocked && m'.ctx.inactivity == 0
      && m'.ctx.state == (if m.ctx.state.LockedOut? then LockedOut else Locked)
      && m' == m.(ctx := m.ctx.(unlocked := false, inactivity := 0, state := m'.ctx.state))
  {
  }

  /** After a PIN change and a lock, guesses are judged by the new PIN if the old one was
      right and both are five digits, and by the old verifier otherwise. */
  lemma PinChangeTakes(m: Machine, oldPin: string, newPin: string, guess: string, hash16: string -> seq<byte>)
    requires Coherent(m.ctx) && m.ctx.unlocked && m.verifier.Some?
    requires WellFormedPin(guess)
    ensures var changed := |oldPin| == |newPin| == 5 && AllDigits(oldPin) && AllDigits(newPin)
                           && m.verifier == Some(hash16(oldPin));
      m.AfterSetPin(oldPin, newPin, hash16).WithReset().AfterTryUnlock(guess, hash16).ctx.unlocked
      <==> if changed then hash16(guess) == hash16(newPin) else m.verifier == Some(hash16(guess))
  {
    var m' := m.AfterSetPin(oldPin, newPin, hash16).WithReset();
    GuessUnlocksIff(m', guess, hash16);
  }

  // ---- prompts ----------------------------------------------------------------

  /** Where the two gestures lead an unlocked device; from everywhere else, nowhere. */
  const TAPS: map<State, State> := map[PromptFill := ConfirmType, ConfirmType := Unlocked, PromptSave := EditCredential]
  const HOLDS: map<State, State> :=
    map[PromptFill := ConfirmType, Unlocked := SelectCredential, EditCredential := Unlocked]

  lemma GesturesLead(m: Machine)
    ensures var s := m.ctx.state;
      && m.AfterTap().ctx.state == (if m.ctx.unlocked && s in TAPS then TAPS[s] else s)
      && m.AfterHold().ctx.state == (if m.ctx.unlocked && s in HOLDS then HOLDS[s] else s)
    ensures m.AfterTap() == m.(ctx := m.ctx.(state := m.AfterTap().ctx.state, inactivity := 0))
    ensures m.AfterHold() == m.(ctx := m.ctx.(state := m.AfterHold().ctx.state, inactivity := 0))
  {
  }

  /** A fill request is accepted if and only if the device is unlocked, neither wiped nor
      locked out, the record is of the very origin asked for, and all is valid. */
  lemma FillAcceptedIff(m: Machine, rec: Record, origin: string)
    requires |rec.origin| < RECORD_ORIGIN_SIZE && |origin| < ORIGIN_SIZE
    requires |rec.username| < USERNAME_SIZE && |rec.password| < PASSWORD_SIZE
    ensures m.FillAccepted(rec, origin)
       <==> && m.ctx.unlocked && !m.ctx.wiped && !m.ctx.state.LockedOut? && rec.origin == origin
            && Validated(Command(RequestFill, 0, origin, rec.username, rec.password))
  {
  }

  /** A fill that shows a prompt takes two gestures, the second of them a tap; one that
      does not takes a tap. A hold alone never confirms. */
  lemma FillGestures(m: Machine, rec: Record, origin: string)
    requires m.FillAccepted(rec, origin)
    ensures var m' := m.AfterRequestFill(rec, origin);
      && m'.AfterTap().AfterTap().ctx.state.Unlocked? && m'.AfterHold().AfterTap().ctx.state.Unlocked?
      && !m'.AfterHold().AfterHold().ctx.state.Unlocked?
      && (m'.AfterTap().ctx.state.Unlocked? <==> !m.settings.touchForFill && !rec.requiresTouch)
  {
  }

  /** A save takes a tap and then a hold. */
  lemma SaveGestures(m: Machine, rec: Record, policy: Policy)
    requires m.SaveAccepted(rec, policy)
    ensures var m' := m.AfterRequestSave(rec, policy);
      && m'.AfterTap().AfterHold().ctx.state.Unlocked?
      && !m'.AfterTap().AfterTap().ctx.state.Unlocked? && m'.AfterHold() == m'
  {
  }

  /** An unlocked machine comes to ask about a save only for a password that passed the
      policy, on a device that is unlocked, not wiped and not locked out. */
  lemma SavePromptIff(m: Machine, e: Event, hash16: string -> seq<byte>)
    requires !m.ctx.state.PromptSave?
    ensures Step(m, e, hash16).ctx.state.PromptSave?
       <==> && e.SaveRequest? && m.ctx.unlocked && !m.ctx.wiped && !m.ctx.state.LockedOut?
            && !e.policy.tooShort && !e.policy.common && !e.policy.reused
            && Validated(Command(RequestSave, 0, Clip(e.rec.origin, ORIGIN_SIZE), Clip(e.rec.username, USERNAME_SIZE),
                                 Clip(e.rec.password, PASSWORD_SIZE)))
  {
    if e.SaveRequest? {
      var rec := e.rec;
      assert Clip(Clip(rec.origin, RECORD_ORIGIN_SIZE), ORIGIN_SIZE) == Clip(rec.origin, ORIGIN_SIZE);
      assert Clip(Clip(rec.username, RECORD_USERNAME_SIZE), USERNAME_SIZE) == Clip(rec.username, USERNAME_SIZE);
      assert Clip(Clip(rec.password, RECORD_PASSWORD_SIZE), PASSWORD_SIZE) == Clip(rec.password, PASSWORD_SIZE);
    }
  }

  /** Applied settings are always usable, are what was asked for if that was usable, and
      fall back to the defaults field by field. */
  lemma SettingsUsable(s: Settings)
    ensures var n := Normalized(s);
      && n.autolockSeconds > 0 && n.pinAttemptLimit in {3, 5, 10}
      && (n == s <==> s.autolockSeconds > 0 && s.pinAttemptLimit in {3, 5, 10})
      && n.autolockSeconds in {s.autolockSeconds, DEFAULT_SETTINGS.autolockSeconds}
      && n.pinAttemptLimit in {s.pinAttemptLimit, DEFAULT_SETTINGS.pinAttemptLimit}
      && n.(autolockSeconds := 1, pinAttemptLimit := 3) == s.(autolockSeconds := 1, pinAttemptLimit := 3)
  {
  }

  // ---- the quadratic lockout law ------------------------------------------

  /** A machine with two counters the firmware does not keep: ticks passed, and
      ticks passed while locked out, both since the last initialisation or unlock. */
  datatype Tally = Tally(m: Machine, waited: nat, elapsed: nat)

  function Counted(t: Tally, e: Event, hash16: string -> seq<byte>): Tally {
    var next := Step(t.m, e, hash16);
    match e
    case Tick =>
      var waiting := t.m.ctx.state.LockedOut? && t.m.ctx.lockoutTicks > 0;
      Tally(next, t.waited + (if waiting then 1 else 0), t.elapsed + 1)
    case TryUnlock(pin) =>
      if t.m.Unlocks(pin, hash16) then Tally(next, 0, 0) else t.(m := next)
    case Init => Tally(next, 0, 0)
    case _ => t.(m := next)
  }

  function Replay(t: Tally, events: seq<Event>, hash16: string -> seq<byte>): Tally
    decreases |events|
  {
    if events == [] then t else Replay(Counted(t, events[0], hash16), events[1..], hash16)
  }

  function TickCount(events: seq<Event>): nat {
    if events == [] then 0 else (if events[0].Tick? then 1 else 0) + TickCount(events[1..])
  }

  /** Settings may change on the way, but not the attempt limit or the wipe flag. */
  predicate KeepsPolicy(events: seq<Event>, limit: byte, wipe: bool) {
    forall e :: e in events && e.ApplySettings? ==>
      Normalized(e.s).pinAttemptLimit == limit && Normalized(e.s).wipeOnLockout == wipe
  }

  ghost predicate LawHolds(t: Tally, limit: byte) {
    var ctx, n := t.m.ctx, t.m.ctx.failedAttempts as int - limit;
    && t.m.settings.pinAttemptLimit == limit && !t.m.settings.wipeOnLockout && !ctx.wiped
    && (ctx.state.LockedOut? <==> ctx.lockoutTicks > 0)
    && t.waited <= t.elapsed
    && (n < 0 ==> t.waited == 0 && ctx.lockoutTicks == 0)
    && (n >= 0 ==> t.waited + ctx.lockoutTicks == (n + 1) * (n + 3) && ctx.lockoutTicks <= 2 * n + 3)
  }

  /** What a wrong guess that is taken leaves, with the wipe off. */
  lemma WrongGuess(m: Machine, pin: string, hash16: string -> seq<byte>)
    requires m.GuessTaken() && !m.RightPin(pin, hash16) && !m.settings.wipeOnLockout
    requires m.ctx.failedAttempts < UINT32_MAX
    ensures var m', n := m.AfterTryUnlock(pin, hash16), m.ctx.failedAttempts + 1 - m.settings.pinAttemptLimit;
      && m'.settings == m.settings && m'.ctx.failedAttempts == m.ctx.failedAttempts + 1
      && m'.ctx.wiped == m.ctx.wiped
      && (n < 0 ==> m'.ctx.lockoutTicks == m.ctx.lockoutTicks && m'.ctx.state.LockedOut? == m.ctx.state.LockedOut?)
      && (n >= 0 ==> m'.ctx.lockoutTicks == Wrap32(2 * n + 3) && m'.ctx.state.LockedOut?)
  {
  }

  lemma CountWraps(m: Machine, pin: string, hash16: string -> seq<byte>)
    requires m.GuessTaken() && !m.RightPin(pin, hash16) && !m.settings.wipeOnLockout
    requires m.ctx.failedAttempts == UINT32_MAX
    ensures m.AfterTryUnlock(pin, hash16).ctx.failedAttempts == 0
  {
  }

  lemma NextPrice(n: int)
    ensures (n + 1) * (n + 3) + 2 * n + 5 == (n + 2) * (n + 4)
    ensures n >= 0 ==> (n + 1) * (n + 3) > 0
  {
  }

  /** A wrong guess that is taken when every owed tick has been served extends the
      law by its own penalty, exactly when that penalty fits 32 bits. */
  lemma WrongGuessKeepsLawIff(t: Tally, pin: string, limit: byte, hash16: string -> seq<byte>)
    requires LawHolds(t, limit) && limit > 0
    requires t.m.GuessTaken() && !t.m.RightPin(pin, hash16)
    ensures LawHolds(t.(m := t.m.AfterTryUnlock(pin, hash16)), limit)
       <==> 2 * (t.m.ctx.failedAttempts - limit) + 5 <= UINT32_MAX
  {
    var n := t.m.ctx.failedAttempts as int - limit;
    if t.m.ctx.failedAttempts == UINT32_MAX {
      CountWraps(t.m, pin, hash16);
      NextPrice(n);
    } else {
      WrongGuess(t.m, pin, hash16);
      if n >= 0 {
        NextPrice(n);
        assert t.m.AfterTryUnlock(pin, hash16).ctx.lockoutTicks == 2 * n + 5 <==> 2 * n + 5 <= UINT32_MAX;
      }
    }
  }

  /** While the ticks served are few enough, so are the guesses they paid for. */
  lemma NoOverflowYet(n: nat, waited: nat)
    requires waited == (n + 1) * (n + 3) && waited < 0x2000_0000_0000_0000
    ensures n < 0x7FFF_FFFD
  {
  }

  lemma WrongGuessWithinBound(t: Tally, limit: byte)
    requires LawHolds(t, limit) && t.m.GuessTaken() && t.elapsed < 0x2000_0000_0000_0000
    ensures 2 * (t.m.ctx.failedAttempts - limit) + 5 <= UINT32_MAX
  {
    var n := t.m.ctx.failedAttempts as int - limit;
    if n >= 0 {
      NoOverflowYet(n, t.waited);
    }
  }

  lemma CountedKeepsLaw(t: Tally, e: Event, limit: byte, hash16: string -> seq<byte>)
    requires LawHolds(t, limit) && limit > 0
    requires KeepsPolicy([e], limit, false)
    requires t.elapsed < 0x2000_0000_0000_0000
    ensures LawHolds(Counted(t, e, hash16), limit)
    ensures Counted(t, e, hash16).elapsed <= t.elapsed + TickCount([e])
  {
    match e {
      case TryUnlock(pin) =>
        if t.m.GuessTaken() && !t.m.RightPin(pin, hash16) {
          WrongGuessWithinBound(t, limit);
          WrongGuessKeepsLawIff(t, pin, limit, hash16);
        }
      case ApplySettings(s) => assert e in [e];
      case _ =>
    }
  }

  lemma {:induction false} ReplayKeepsLaw(t: Tally, events: seq<Event>, limit: byte, hash16: string -> seq<byte>)
    requires LawHolds(t, limit) && limit > 0
    requires KeepsPolicy(events, limit, false)
    requires t.elapsed + TickCount(events) < 0x2000_0000_0000_0000
    ensures LawHolds(Replay(t, events, hash16), limit)
    decreases |events|
  {
    if events != [] {
      assert TickCount([events[0]]) + TickCount(events[1..]) == TickCount(events);
      CountedKeepsLaw(t, events[0], limit, hash16);
      ReplayKeepsLaw(Counted(t, events[0], hash16), events[1..], limit, hash16);
    }
  }

  /** A machine just initialised under attempt limit `limit` with the wipe off. */
  predicate Fresh(m: Machine, limit: byte) {
    m.ctx == INITIAL_CONTEXT && m.settings.pinAttemptLimit == limit && !m.settings.wipeOnLockout
  }

  lemma LawSays(t: Tally, limit: byte)
    requires LawHolds(t, limit)
    ensures var n := t.m.ctx.failedAttempts as int - limit;
      && t.waited + t.m.ctx.lockoutTicks == (if n < 0 then 0 else (n + 1) * (n + 3))
      && (n > 0 ==> t.elapsed >= n * (n + 2))
  {
    var n := t.m.ctx.failedAttempts as int - limit;
    assert (n + 1) * (n + 3) == n * (n + 2) + 2 * n + 3;
  }

  /** The quadratic law. Since the last initialisation or successful unlock, with
      n wrong guesses on record, the ticks served plus the ticks still owed are
      (n-L+1)(n-L+3) once n has reached the limit L, and nothing before; so n > L
      guesses have cost at least (n-L)(n-L+2) ticks. With the wipe off, no
      number of guesses wipes the device. */
  lemma LockoutLaw(m: Machine, events: seq<Event>, limit: byte, hash16: string -> seq<byte>)
    requires Fresh(m, limit) && limit > 0
    requires KeepsPolicy(events, limit, false)
    requires TickCount(events) < 0x2000_0000_0000_0000
    ensures var t := Replay(Tally(m, 0, 0), events, hash16);
      var n := t.m.ctx.failedAttempts as int - limit;
      && t.m == Run(m, events, hash16)
      && !t.m.ctx.wiped
      && t.waited <= t.elapsed
      && t.waited + t.m.ctx.lockoutTicks == (if n < 0 then 0 else (n + 1) * (n + 3))
      && (n > 0 ==> t.elapsed >= n * (n + 2))
  {
    ReplayKeepsLaw(Tally(m, 0, 0), events, limit, hash16);
    ReplayIsRun(Tally(m, 0, 0), events, hash16);
    LawSays(Replay(Tally(m, 0, 0), events, hash16), limit);
  }

  lemma {:induction false} ReplayIsRun(t: Tally, events: seq<Event>, hash16: string -> seq<byte>)
    ensures Replay(t, events, hash16).m == Run(t.m, events, hash16)
    decreases |events|
  {
    if events != [] {
      ReplayIsRun(Counted(t, events[0], hash16), events[1..], hash16);
    }
  }

  /** Why the law needs a bound at all: with 2^31 - 1 guesses beyond the limit on
      record, the next penalty wraps to a single tick. */
  lemma PenaltyWraps(m: Machine, pin: string, hash16: string -> seq<byte>)
    requires m.GuessTaken() && !m.RightPin(pin, hash16) && !m.settings.wipeOnLockout
    requires m.ctx.failedAttempts + 1 == m.settings.pinAttemptLimit + 0x7FFF_FFFF
    ensures m.AfterTryUnlock(pin, hash16).ctx.lockoutTicks == 1
  {
    assert LOCKOUT_TICKS_BASE + 0x7FFF_FFFF * LOCKOUT_TICKS_STEP == 0x1_0000_0001;
  }

  // ---- the wipe ------------------------------------------------------------

  ghost predicate WipeInvariant(m: Machine) {
    && m.settings.wipeOnLockout
    && m.ctx.failedAttempts <= WIPE_THRESHOLD
    && (m.ctx.wiped <==> m.ctx.failedAttempts == WIPE_THRESHOLD)
    && Coherent(m.ctx)
  }

  predicate KeepsWipe(events: seq<Event>) {
    forall e :: e in events && e.ApplySettings? ==> e.s.wipeOnLockout
  }

  /** With the wipe on throughout, the tenth wrong guess in a row, and nothing
      else, wipes the device; the count never passes ten. */
  lemma {:induction false} WipeLaw(m: Machine, events: seq<Event>, hash16: string -> seq<byte>)
    requires WipeInvariant(m) && KeepsWipe(events)
    ensures WipeInvariant(Run(m, events, hash16))
    decreases |events|
  {
    if events != [] {
      assert events[0] in events;
      if events[0].TryUnlock? {
        TryUnlockKeepsCoherent(m, events[0].pin, hash16);
      }
      WipeLaw(Step(m, events[0], hash16), events[1..], hash16);
    }
  }

  /** The wipe stays in force all along a run. */
  predicate StaysWiped(m: Machine, events: seq<Event>, hash16: string -> seq<byte>)
    decreases |events|
  {
    m.ctx.wiped && (events != [] ==> StaysWiped(Step(m, events[0], hash16), events[1..], hash16))
  }

  /** A wiped device stays wiped, and is never unlocked, along exactly the runs without
      a new initialisation, even if the settings change. */
  lemma {:induction false} WipedUntilInit(m: Machine, events: seq<Event>, hash16: string -> seq<byte>)
    requires m.ctx.wiped && !m.ctx.unlocked
    ensures StaysWiped(m, events, hash16) <==> Init !in events
    ensures Init !in events ==> Run(m, events, hash16).ctx.wiped && !Run(m, events, hash16).ctx.unlocked
    decreases |events|
  {
    if events != [] {
      assert Init in events <==> events[0].Init? || Init in events[1..];
      if !events[0].Init? {
        WipedUntilInit(Step(m, events[0], hash16), events[1..], hash16);
      }
    }
  }

  /** An initialisation forgives the ticks still owed: it takes guesses again at once,
      with no wrong one on record, from every state. */
  lemma InitForgives(m: Machine)
    ensures var m' := m.AfterInit();
      && (m'.GuessTaken() <==> m.verifier.Some?)
      && m'.ctx.failedAttempts == 0 && m'.ctx.lockoutTicks == 0 && !m'.ctx.wiped && !m'.ctx.unlocked
  {
  }

  // ---- autolock ------------------------------------------------------------

  /** How long an unlocked device can have been idle under any settings. */
  ghost predicate IdleBounded(m: Machine) {
    && m.settings.autolockSeconds > 0
    && (m.ctx.unlocked ==> m.ctx.inactivity < 0xFFFF)
  }

  lemma {:induction false} RunKeepsIdleBounded(m: Machine, events: seq<Event>, hash16: string -> seq<byte>)
    requires IdleBounded(m)
    ensures IdleBounded(Run(m, events, hash16))
    decreases |events|
  {
    if events != [] {
      RunKeepsIdleBounded(Step(m, events[0], hash16), events[1..], hash16);
    }
  }

  predicate KeepsAutolock(events: seq<Event>, seconds: uint16) {
    forall e :: e in events && e.ApplySettings? ==> Normalized(e.s).autolockSeconds == seconds
  }

  /** With the autolock time fixed, an unlocked device has always been idle for less. */
  lemma {:induction false} IdleBelowAutolock(m: Machine, events: seq<Event>, hash16: string -> seq<byte>)
    requires m.settings.autolockSeconds > 0
    requires m.ctx.unlocked ==> m.ctx.inactivity < m.settings.autolockSeconds
    requires KeepsAutolock(events, m.settings.autolockSeconds)
    ensures var r := Run(m, events, hash16);
      r.settings.autolockSeconds == m.settings.autolockSeconds &&
      (r.ctx.unlocked ==> r.ctx.inactivity < r.settings.autolockSeconds)
    decreases |events|
  {
    if events != [] {
      assert events[0] in events;
      IdleBelowAutolock(Step(m, events[0], hash16), events[1..], hash16);
    }
  }

  function Ticks(k: nat): seq<Event> { seq(k, _ => Tick) }

  lemma {:induction false} TicksLock(m: Machine, k: nat, hash16: string -> seq<byte>)
    requires IdleBounded(m) && k > 0 && (m.ctx.unlocked ==> !m.ctx.state.LockedOut?)
    requires m.ctx.unlocked ==> m.ctx.inactivity + k >= m.settings.autolockSeconds
    ensures !Run(m, Ticks(k), hash16).ctx.unlocked
    decreases k
  {
    var next := m.AfterTick();
    assert Ticks(k)[1..] == Ticks(k - 1);
    assert Run(m, Ticks(k), hash16) == Run(next, Ticks(k - 1), hash16);
    if k > 1 {
      TicksLock(next, k - 1, hash16);
    }
  }

  lemma {:induction false} TicksKeepLocked(m: Machine, k: nat, hash16: string -> seq<byte>)
    requires !m.ctx.unlocked && !m.ctx.state.LockedOut?
    ensures Run(m, Ticks(k), hash16) == m
    decreases k
  {
    if k > 0 {
      assert Ticks(k)[1..] == Ticks(k - 1);
      TicksKeepLocked(m, k - 1, hash16);
    }
  }

  /** Ticks alone lock an unlocked device exactly when they have brought the idle time to
      the autolock time; until then nothing but the idle time changes. */
  lemma {:induction false} TicksLockIff(m: Machine, k: nat, hash16: string -> seq<byte>)
    requires m.ctx.unlocked && !m.ctx.state.LockedOut? && m.ctx.inactivity < m.settings.autolockSeconds
    ensures var r := Run(m, Ticks(k), hash16);
      && (r.ctx.unlocked <==> m.ctx.inactivity + k < m.settings.autolockSeconds)
      && (r.ctx.unlocked ==> r == m.(ctx := m.ctx.(inactivity := m.ctx.inactivity + k)))
      && (!r.ctx.unlocked ==> r.ctx.state == Locked)
    decreases k
  {
    if k > 0 {
      assert Ticks(k)[1..] == Ticks(k - 1);
      assert Run(m, Ticks(k), hash16) == Run(m.AfterTick(), Ticks(k - 1), hash16);
      if m.AfterTick().ctx.unlocked {
        TicksLockIff(m.AfterTick(), k - 1, hash16);
      } else {
        TicksKeepLocked(m.AfterTick(), k - 1, hash16);
      }
    }
  }

  /** A gesture on an unlocked device, or a request it accepts, starts the idle time over:
      ticks then lock it exactly when there are as many as the autolock time. */
  lemma TouchRestartsAutolock(m: Machine, e: Event, k: nat, hash16: string -> seq<byte>)
    requires m.ctx.unlocked && !m.ctx.state.LockedOut? && m.settings.autolockSeconds > 0
    requires || e.Tap? || e.Hold?
             || (e.FillRequest? && m.FillAccepted(e.rec, e.origin))
             || (e.SaveRequest? && m.SaveAccepted(e.rec, e.policy))
    ensures Run(Step(m, e, hash16), Ticks(k), hash16).ctx.unlocked <==> k < m.settings.autolockSeconds
  {
    TicksLockIff(Step(m, e, hash16), k, hash16);
  }

  /** Ticks alone end a lockout exactly when all that were owed have been served. */
  lemma {:induction false} TicksServe(m: Machine, k: nat, hash16: string -> seq<byte>)
    requires m.ctx.state.LockedOut? && !m.ctx.wiped && !m.ctx.unlocked && m.ctx.lockoutTicks > 0
    ensures Run(m, Ticks(k), hash16)
         == m.(ctx := if k < m.ctx.lockoutTicks then m.ctx.(lockoutTicks := m.ctx.lockoutTicks - k)
                      else m.ctx.(lockoutTicks := 0, state := Locked))
    decreases k
  {
    if k > 0 {
      assert Ticks(k)[1..] == Ticks(k - 1);
      assert Run(m, Ticks(k), hash16) == Run(m.AfterTick(), Ticks(k - 1), hash16);
      if m.AfterTick().ctx.state.LockedOut? {
        TicksServe(m.AfterTick(), k - 1, hash16);
      } else {
        TicksKeepLocked(m.AfterTick(), k - 1, hash16);
      }
    }
  }

  /** From anywhere a run from power-on can reach, that many ticks in a row leave
      the device not unlocked, whatever settings were applied before. */
  lemma AutolockLaw(events: seq<Event>, hash16: string -> seq<byte>)
    ensures var m := Run(POWER_ON, events, hash16);
      !Run(POWER_ON, events + Ticks(m.settings.autolockSeconds), hash16).ctx.unlocked
  {
    var m := Run(POWER_ON, events, hash16);
    RunKeepsIdleBounded(POWER_ON, events, hash16);
    RunKeepsCoherent(POWER_ON, events, hash16);
    RunAppend(POWER_ON, events, Ticks(m.settings.autolockSeconds), hash16);
    TicksLock(m, m.settings.autolockSeconds, hash16);
  }
}
