/** What every run of the action engine keeps of the lock: the price of wrong guesses,
    the wipe and the autolock. */
module EngineGuardLaws {
  import opened Basics
  import opened StateMachine
  import opened ActionEngine
  import opened EngineLaws
  import opened EngineLockLaws
  import opened Envelope
  import LockoutLaws
  import BrowserProtocol

  // ---- events that are neither a tick nor a guess --------------------------------------

  predicate SettingsFollow(was: Settings, s: Settings, ev: Event) {
    || s == was || s == Normalized(Ungated(was))
    || (ev.ApplySettings? && s == Normalized(ev.settings))
    || (ev.DeviceSettings? && s == Normalized(Ungated(ev.settings)))
  }

  /** They move no counter of the lock, unlock nothing, end a lockout only by a bare
      hold that performs something, and at most start the idle time over. */
  ghost predicate Quiet(e: Engine, m': Machine, ev: Event, reopened: bool) {
    var m := e.machine;
    && m'.ctx.failedAttempts == m.ctx.failedAttempts && m'.ctx.lockoutTicks == m.ctx.lockoutTicks
    && m'.ctx.wiped == m.ctx.wiped && (m'.ctx.unlocked ==> m.ctx.unlocked)
    && m'.ctx.inactivity in {m.ctx.inactivity, 0}
    && (m'.ctx.state.LockedOut? <==> m.ctx.state.LockedOut? && !reopened)
    && SettingsFollow(m.settings, m'.settings, ev)
  }

  lemma QuietCall(env: Env, e: Engine, cmd: BrowserProtocol.Command, aad: Aad, ev: Event)
    ensures Quiet(e, e.HandleCommand(env, cmd, aad).0.machine, ev, false)
    ensures Quiet(e, e.DeviceCall(env, cmd, aad).0.machine, ev, false)
  {
    HandleIsSafe(env, e, cmd, aad);
    var (mid, out) := e.HandleCommand(env, cmd, aad);
    HoldPerformsIff(env, mid);
    GestureKeepsLock(mid.machine);
  }

  lemma QuietStep(env: Env, e: Engine, ev: Event)
    requires !ev.Tick? && !ev.UnlockWithPin?
    ensures Quiet(e, Step(env, e, ev).0.machine, ev, ev.Hold? && HoldWillPerform(env, e))
  {
    if CommandOf(e, ev).Some? {
      QuietCall(env, e, CommandOf(e, ev).value, ev.aad, ev);
    } else if ev.Tap? {
      TapTypesIff(env, e);
      GestureKeepsLock(e.machine);
    } else if ev.Hold? {
      HoldPerformsIff(env, e);
      GestureKeepsLock(e.machine);
    }
  }

  /** Once the interaction gates are off they stay off, over every run without a direct
      change of the settings; and the buttons and the device's own settings put them off. */
  lemma {:induction false} UngatedStays(env: Env, e: Engine, events: seq<Event>)
    requires e.machine.settings.autoPopup && !e.machine.settings.touchForFill
    requires forall i :: 0 <= i < |events| ==> !events[i].ApplySettings?
    ensures var s := Run(env, e, events).machine.settings; s.autoPopup && !s.touchForFill
    decreases |events|
  {
    if events != [] {
      var before, ev := Run(env, e, events[..|events| - 1]), events[|events| - 1];
      UngatedStays(env, e, events[..|events| - 1]);
      if !ev.Tick? && !ev.UnlockWithPin? {
        QuietStep(env, before, ev);
      }
    }
  }

  lemma DeviceSettingsUngate(env: Env, e: Engine, ev: Event)
    requires ev.DeviceSettings? || ev.ButtonHold?
    ensures var (e', out) := Step(env, e, ev);
      var s := e'.machine.settings;
      && (out.performed <==> ev.ButtonHold? || e.machine.SensitiveReady())
      && e' == e.(machine := e.machine.(settings := s))
      && (if out.performed then
            && s.autoPopup && !s.manualPopupTouch && !s.touchForFill && !s.holdForSelection
            && s.wipeOnLockout == (if ev.DeviceSettings? then ev.settings else e.machine.settings).wipeOnLockout
          else s == e.machine.settings)
  {
  }

  // ---- the verifier -------------------------------------------------------------------

  lemma HoldKeepsVerifier(env: Env, e: Engine)
    ensures e.ConfirmHold(env).0.pinVerifier == e.pinVerifier
  {
  }

  lemma TapKeepsVerifier(env: Env, e: Engine)
    ensures e.ConfirmTap(env).0.pinVerifier == e.pinVerifier
  {
  }

  lemma RequestsKeepVerifier(env: Env, e: Engine, cmd: BrowserProtocol.Command, aad: Aad)
    ensures e.RequestFill(env, cmd).0.pinVerifier == e.pinVerifier
    ensures e.RequestSave(env, cmd, aad).0.pinVerifier == e.pinVerifier
    ensures e.RequestGenerate(env, cmd, aad).0.pinVerifier == e.pinVerifier
    ensures e.RequestSelect().0.pinVerifier == e.pinVerifier
  {
  }

  lemma GateKeepsVerifier(e: Engine, cmd: BrowserProtocol.Command)
    ensures e.Gate(cmd).0.pinVerifier == e.pinVerifier
  {
  }

  lemma HandleKeepsVerifier(env: Env, e: Engine, cmd: BrowserProtocol.Command, aad: Aad)
    ensures e.HandleCommand(env, cmd, aad).0.pinVerifier == e.pinVerifier
  {
    GateKeepsVerifier(e, cmd);
    RequestsKeepVerifier(env, e.Gate(cmd).0, cmd, aad);
  }

  lemma CallKeepsVerifier(env: Env, e: Engine, cmd: BrowserProtocol.Command, aad: Aad)
    ensures e.HandleCommand(env, cmd, aad).0.machine.verifier == e.machine.verifier
    ensures e.DeviceCall(env, cmd, aad).0.machine.verifier == e.machine.verifier
    ensures e.DeviceCall(env, cmd, aad).0.pinVerifier == e.pinVerifier
  {
    HandleIsSafe(env, e, cmd, aad);
    HandleKeepsVerifier(env, e, cmd, aad);
    var mid := e.HandleCommand(env, cmd, aad).0;
    HoldPerformsIff(env, mid);
    GestureKeepsLock(mid.machine);
    HoldKeepsVerifier(env, mid);
  }

  lemma StepVerifiers(env: Env, e: Engine, ev: Event)
    requires e.pinVerifier == e.machine.verifier
    ensures var e' := Step(env, e, ev).0;
      && e'.pinVerifier == e'.machine.verifier
      && e'.machine.verifier
         == if ev.ChangePin? && e.machine.PinChangeAccepted(ev.oldPin, ev.newPin, env.hash16)
            then Some(env.hash16(ev.newPin)) else e.machine.verifier
  {
    if CommandOf(e, ev).Some? {
      CallKeepsVerifier(env, e, CommandOf(e, ev).value, ev.aad);
      HandleKeepsVerifier(env, e, CommandOf(e, ev).value, ev.aad);
    } else if ev.Tap? || ev.Hold? {
      HoldKeepsVerifier(env, e);
      TapKeepsVerifier(env, e);
      TapTypesIff(env, e);
      HoldPerformsIff(env, e);
      GestureKeepsLock(e.machine);
    }
  }

  /** The verifier the engine would record and the one guesses are judged by stay the same
      over every run, and only an accepted PIN change moves them. */
  lemma {:induction false} VerifiersAgree(env: Env, e: Engine, events: seq<Event>)
    requires e.pinVerifier == e.machine.verifier
    ensures Run(env, e, events).pinVerifier == Run(env, e, events).machine.verifier
    ensures (forall i :: 0 <= i < |events| ==> !events[i].ChangePin?) ==>
      Run(env, e, events).machine.verifier == e.machine.verifier
    decreases |events|
  {
    if events != [] {
      VerifiersAgree(env, e, events[..|events| - 1]);
      StepVerifiers(env, Run(env, e, events[..|events| - 1]), events[|events| - 1]);
    }
  }

  // ---- the price of wrong guesses ------------------------------------------------------

  /** An engine with the two counters of `LockoutLaws.Tally`. */
  datatype Tally = Tally(e: Engine, waited: nat, elapsed: nat) {
    function Lock(): LockoutLaws.Tally { LockoutLaws.Tally(e.machine, waited, elapsed) }
  }

  function Counted(env: Env, t: Tally, ev: Event): Tally {
    var next := Step(env, t.e, ev).0;
    match ev
    case Tick =>
      var c := LockoutLaws.Counted(t.Lock(), LockoutLaws.Tick, env.hash16);
      Tally(next, c.waited, c.elapsed)
    case UnlockWithPin(pin) =>
      var c := LockoutLaws.Counted(t.Lock(), LockoutLaws.TryUnlock(pin), env.hash16);
      Tally(next, c.waited, c.elapsed)
    case _ => t.(e := next)
  }

  function Replay(env: Env, t: Tally, events: seq<Event>): Tally
    decreases |events|
  {
    if events == [] then t else Counted(env, Replay(env, t, events[..|events| - 1]), events[|events| - 1])
  }

  function TickCount(events: seq<Event>): nat
    decreases |events|
  {
    if events == [] then 0 else TickCount(events[..|events| - 1]) + if events[|events| - 1].Tick? then 1 else 0
  }

  predicate KeepsPolicy(ev: Event, limit: byte) {
    ev.ApplySettings? || ev.DeviceSettings? ==>
      Normalized(ev.settings).pinAttemptLimit == limit && !ev.settings.wipeOnLockout
  }

  /** An event that moves no counter keeps the law exactly if it keeps the lockout. */
  lemma QuietKeepsLawIff(t: LockoutLaws.Tally, m: Machine, limit: byte)
    requires LockoutLaws.LawHolds(t, limit)
    requires m.ctx.failedAttempts == t.m.ctx.failedAttempts && m.ctx.lockoutTicks == t.m.ctx.lockoutTicks
    requires m.ctx.wiped == t.m.ctx.wiped && m.settings.pinAttemptLimit == limit && !m.settings.wipeOnLockout
    ensures LockoutLaws.LawHolds(t.(m := m), limit) <==> m.ctx.state.LockedOut? == t.m.ctx.state.LockedOut?
  {
  }

  lemma PricedSettings(m: Machine, m': Machine, ev: Event, limit: byte)
    requires SettingsFollow(m.settings, m'.settings, ev) && KeepsPolicy(ev, limit) && limit in {3, 5, 10}
    requires m.settings.pinAttemptLimit == limit && !m.settings.wipeOnLockout
    ensures m'.settings.pinAttemptLimit == limit && !m'.settings.wipeOnLockout
  {
  }

  /** A bare hold that leaves a lockout in force. */
  predicate HoldKeepsLockout(env: Env, e: Engine, ev: Event) {
    ev.Hold? ==> !e.machine.ctx.state.LockedOut? || !HoldWillPerform(env, e)
  }

  /** One event keeps the law if and only if it is not a bare hold that performs
      something during a lockout. */
  lemma CountedKeepsLawIff(env: Env, t: Tally, ev: Event, limit: byte)
    requires LockoutLaws.LawHolds(t.Lock(), limit) && KeepsPolicy(ev, limit) && limit in {3, 5, 10}
    requires t.elapsed < 0x2000_0000_0000_0000
    ensures LockoutLaws.LawHolds(Counted(env, t, ev).Lock(), limit) <==> HoldKeepsLockout(env, t.e, ev)
  {
    if ev.Tick? {
      LockoutLaws.CountedKeepsLaw(t.Lock(), LockoutLaws.Tick, limit, env.hash16);
    } else if ev.UnlockWithPin? {
      LockoutLaws.CountedKeepsLaw(t.Lock(), LockoutLaws.TryUnlock(ev.pin), limit, env.hash16);
    } else {
      QuietStep(env, t.e, ev);
      PricedSettings(t.e.machine, Step(env, t.e, ev).0.machine, ev, limit);
      QuietKeepsLawIff(t.Lock(), Step(env, t.e, ev).0.machine, limit);
    }
  }

  lemma CountedElapsed(env: Env, t: Tally, ev: Event)
    ensures Counted(env, t, ev).e == Step(env, t.e, ev).0
    ensures Counted(env, t, ev).elapsed <= t.elapsed + if ev.Tick? then 1 else 0
  {
  }

  lemma {:induction false} ReplayElapsed(env: Env, t: Tally, events: seq<Event>)
    ensures Replay(env, t, events).e == Run(env, t.e, events)
    ensures Replay(env, t, events).elapsed <= t.elapsed + TickCount(events)
    decreases |events|
  {
    if events != [] {
      ReplayElapsed(env, t, events[..|events| - 1]);
      CountedElapsed(env, Replay(env, t, events[..|events| - 1]), events[|events| - 1]);
    }
  }

  /** The law holds all along a run. */
  ghost predicate StaysLawful(env: Env, t: Tally, events: seq<Event>, limit: byte)
    decreases |events|
  {
    && LockoutLaws.LawHolds(Replay(env, t, events).Lock(), limit)
    && (events != [] ==> StaysLawful(env, t, events[..|events| - 1], limit))
  }

  /** No bare hold of a run performed anything during a lockout. */
  predicate LockoutsHold(env: Env, e: Engine, events: seq<Event>)
    decreases |events|
  {
    events != [] ==>
      var before := events[..|events| - 1];
      LockoutsHold(env, e, before) && HoldKeepsLockout(env, Run(env, e, before), events[|events| - 1])
  }

  lemma {:induction false} StaysLawfulIff(env: Env, t: Tally, events: seq<Event>, limit: byte)
    requires LockoutLaws.LawHolds(t.Lock(), limit) && limit in {3, 5, 10}
    requires t.elapsed + TickCount(events) < 0x2000_0000_0000_0000
    requires forall i :: 0 <= i < |events| ==> KeepsPolicy(events[i], limit)
    ensures StaysLawful(env, t, events, limit) <==> LockoutsHold(env, t.e, events)
    decreases |events|
  {
    if events != [] {
      var before := events[..|events| - 1];
      StaysLawfulIff(env, t, before, limit);
      ReplayElapsed(env, t, before);
      if StaysLawful(env, t, before, limit) {
        CountedKeepsLawIff(env, Replay(env, t, before), events[|events| - 1], limit);
      }
    }
  }

  /** What the law says, spelled out. */
  ghost predicate Priced(t: Tally, limit: byte) {
    var ctx, n := t.e.machine.ctx, t.e.machine.ctx.failedAttempts as int - limit;
    && t.waited <= t.elapsed && !ctx.wiped
    && t.waited + ctx.lockoutTicks == (if n < 0 then 0 else (n + 1) * (n + 3))
    && (n > 0 ==> t.elapsed >= n * (n + 2))
  }

  lemma LawIsPriced(t: Tally, limit: byte)
    requires LockoutLaws.LawHolds(t.Lock(), limit)
    ensures Priced(t, limit)
  {
    LockoutLaws.LawSays(t.Lock(), limit);
  }

  lemma FreshIsLawful(e: Engine, limit: byte)
    requires LockoutLaws.Fresh(e.machine, limit) && limit > 0
    ensures LockoutLaws.LawHolds(Tally(e, 0, 0).Lock(), limit)
  {
  }

  /** The quadratic law for the whole engine, whatever commands, confirmations and
      one-call operations come between the guesses: it holds all along a run if and only
      if no bare hold performed anything during a lockout, and then it says what
      `LockoutLaws.LockoutLaw` says. */
  lemma EngineLockoutLaw(env: Env, e: Engine, events: seq<Event>, limit: byte)
    requires LockoutLaws.Fresh(e.machine, limit) && limit in {3, 5, 10}
    requires TickCount(events) < 0x2000_0000_0000_0000
    requires forall i :: 0 <= i < |events| ==> KeepsPolicy(events[i], limit)
    ensures StaysLawful(env, Tally(e, 0, 0), events, limit) <==> LockoutsHold(env, e, events)
    ensures var t := Replay(env, Tally(e, 0, 0), events);
      && t.e == Run(env, e, events) && t.elapsed <= TickCount(events)
      && (LockoutsHold(env, e, events) ==> Priced(t, limit))
  {
    FreshIsLawful(e, limit);
    StaysLawfulIff(env, Tally(e, 0, 0), events, limit);
    ReplayElapsed(env, Tally(e, 0, 0), events);
    if LockoutsHold(env, e, events) {
      LawIsPriced(Replay(env, Tally(e, 0, 0), events), limit);
    }
  }

  // ---- the wipe and the autolock -----------------------------------------------------

  ghost predicate WipeCounted(m: Machine) {
    && m.settings.wipeOnLockout && m.ctx.failedAttempts <= WIPE_THRESHOLD
    && (m.ctx.wiped <==> m.ctx.failedAttempts == WIPE_THRESHOLD)
    && (m.ctx.wiped ==> !m.ctx.unlocked)
  }

  predicate KeepsWipe(ev: Event) { ev.ApplySettings? || ev.DeviceSettings? ==> ev.settings.wipeOnLockout }

  /** With the wipe on throughout, over every run of the engine, bare holds included:
      the device is wiped exactly when ten wrong guesses are on record, never more. */
  lemma {:induction false} EngineWipeLaw(env: Env, e: Engine, events: seq<Event>)
    requires WipeCounted(e.machine) && forall i :: 0 <= i < |events| ==> KeepsWipe(events[i])
    ensures WipeCounted(Run(env, e, events).machine)
    decreases |events|
  {
    if events != [] {
      var before, ev := Run(env, e, events[..|events| - 1]), events[|events| - 1];
      EngineWipeLaw(env, e, events[..|events| - 1]);
      if !ev.Tick? && !ev.UnlockWithPin? {
        QuietStep(env, before, ev);
      }
    }
  }

  /** A wiped device is never unlocked again by any run of the engine. */
  lemma {:induction false} EngineWipedStaysLocked(env: Env, e: Engine, events: seq<Event>)
    requires e.machine.ctx.wiped && !e.machine.ctx.unlocked
    ensures Run(env, e, events).machine.ctx.wiped && !Run(env, e, events).machine.ctx.unlocked
    decreases |events|
  {
    if events != [] {
      var before, ev := Run(env, e, events[..|events| - 1]), events[|events| - 1];
      EngineWipedStaysLocked(env, e, events[..|events| - 1]);
      if !ev.Tick? && !ev.UnlockWithPin? {
        QuietStep(env, before, ev);
      }
    }
  }

  ghost predicate Awake(m: Machine) {
    LockoutLaws.IdleBounded(m) && (m.ctx.unlocked ==> !m.ctx.state.LockedOut?)
  }

  lemma {:induction false} RunStaysAwake(env: Env, e: Engine, events: seq<Event>)
    requires Awake(e.machine)
    ensures Awake(Run(env, e, events).machine)
    decreases |events|
  {
    if events != [] {
      var before, ev := Run(env, e, events[..|events| - 1]), events[|events| - 1];
      RunStaysAwake(env, e, events[..|events| - 1]);
      if !ev.Tick? && !ev.UnlockWithPin? {
        QuietStep(env, before, ev);
      }
    }
  }

  /** The engine after `k` ticks in a row. */
  function Ticking(env: Env, e: Engine, k: nat): Engine {
    if k == 0 then e else Step(env, Ticking(env, e, k - 1), Event.Tick).0
  }

  lemma {:induction false} TickingIsRun(env: Env, e: Engine, k: nat)
    ensures Ticking(env, e, k).machine == LockoutLaws.Run(e.machine, LockoutLaws.Ticks(k), env.hash16)
    decreases k
  {
    if k > 0 {
      TickingIsRun(env, e, k - 1);
      TicksSnoc(e.machine, k - 1, env.hash16);
    }
  }

  lemma TicksSnoc(m: Machine, k: nat, hash16: string -> seq<byte>)
    ensures LockoutLaws.Run(m, LockoutLaws.Ticks(k + 1), hash16)
         == LockoutLaws.Run(m, LockoutLaws.Ticks(k), hash16).AfterTick()
  {
    var m' := LockoutLaws.Run(m, LockoutLaws.Ticks(k), hash16);
    assert LockoutLaws.Ticks(k + 1) == LockoutLaws.Ticks(k) + [LockoutLaws.Tick];
    LockoutLaws.RunAppend(m, LockoutLaws.Ticks(k), [LockoutLaws.Tick], hash16);
    assert LockoutLaws.Run(m', [LockoutLaws.Tick], hash16) == LockoutLaws.Run(m'.AfterTick(), [], hash16);
  }

  /** After every run of the engine from power-on, bare holds included, as many ticks in
      a row as the autolock time leave the device not unlocked. */
  lemma EngineAutolockLaw(env: Env, e: Engine, events: seq<Event>)
    requires e.machine.ctx == INITIAL_CONTEXT && e.machine.settings.autolockSeconds > 0
    ensures var e' := Run(env, e, events);
      !Ticking(env, e', e'.machine.settings.autolockSeconds).machine.ctx.unlocked
  {
    var m := Run(env, e, events).machine;
    RunStaysAwake(env, e, events);
    TickingIsRun(env, Run(env, e, events), m.settings.autolockSeconds);
    LockoutLaws.TicksLock(m, m.settings.autolockSeconds, env.hash16);
  }
}
