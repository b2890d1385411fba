/** When the action engine types, and when every run of it keeps the meaning of the
    lock flags. */
module EngineLockLaws {
  import opened Basics
  import opened BrowserProtocol
  import opened StateMachine
  import opened RateLimiting
  import opened Vaults
  import opened Envelope
  import opened ActionEngine
  import opened EngineLaws
  import LockoutLaws

  // ---- what a confirmation will do ------------------------------------------------

  /** The manual-popup gate is off, or the button has been pressed. */
  predicate GateOpen(e: Engine) {
    e.machine.settings.autoPopup || !e.machine.settings.manualPopupTouch || e.armed
  }

  predicate HasText(env: Env, c: Credential) {
    var rec := env.Load(c);
    rec.Some? && (rec.value.username != "" || rec.value.password != "")
  }

  /** Will a hold carry out the pending request? Its lock state has no say in that. */
  predicate HoldWillPerform(env: Env, e: Engine) {
    match e.pending.kind
    case NoAction => false
    case PendingFill => GateOpen(e) && env.Load(e.pending.credential).Some?
    case PendingSelect => e.pending.index < |e.vault| && e.vault[e.pending.index].valid
    case _ =>
      && DecryptPassword(env.key, env.hash, e.pending.credential.ciphertext, RECORD_PASSWORD_SIZE).Some?
      && UpsertSucceeds(e.vault, e.pending.credential)
  }

  predicate HoldWillType(env: Env, e: Engine) {
    e.pending.kind.PendingFill? && GateOpen(e) && HasText(env, e.pending.credential)
  }

  predicate TapWillType(env: Env, e: Engine) {
    && e.pending.kind.PendingFill? && HasText(env, e.pending.credential)
    && (e.machine.ctx.state.Unlocked? || (e.machine.ctx.unlocked && e.machine.ctx.state.ConfirmType?))
  }

  lemma TypeTypesIff(env: Env, e: Engine)
    ensures var (e', out) := e.TypePending(env);
      && (out.performed <==> env.Load(e.pending.credential).Some?)
      && (Typed(out) <==> HasText(env, e.pending.credential))
      && SameLock(e.machine, e'.machine, if out.performed then Unlocked else e.machine.ctx.state)
  {
  }

  lemma CommitPerformsIff(env: Env, e: Engine)
    requires e.pending.kind in {PendingSave, PendingGenerate}
    ensures var (e', out) := e.Commit(env);
      && (out.performed <==> HoldWillPerform(env, e)) && !Typed(out)
      && SameLock(e.machine, e'.machine, if out.performed then Unlocked else e.machine.ctx.state)
  {
  }

  lemma SelectPerformsIff(env: Env, e: Engine)
    requires e.pending.kind.PendingSelect?
    ensures var (e', out) := e.SelectPending();
      && (out.performed <==> HoldWillPerform(env, e)) && !Typed(out)
      && SameLock(e.machine, e'.machine, if out.performed then Unlocked else e.machine.ctx.state)
  {
  }

  /** A hold performs and types exactly when that was to be seen before. A performed
      one leaves the machine in the state UNLOCKED, whatever the flag of that name says. */
  lemma HoldPerformsIff(env: Env, e: Engine)
    ensures var (e', out) := e.ConfirmHold(env);
      && (out.performed <==> HoldWillPerform(env, e))
      && (Typed(out) <==> HoldWillType(env, e))
      && (e.pending.kind.NoAction? || SameLock(e.machine.AfterHold(), e'.machine,
                                               if out.performed then Unlocked else e.machine.AfterHold().ctx.state))
      && (e.pending.kind.NoAction? ==> e' == e)
  {
    var held := e.(machine := e.machine.AfterHold());
    match e.pending.kind {
      case NoAction =>
      case PendingFill =>
        TypeTypesIff(env, held);
        TypeTypesIff(env, held.(armed := false));
      case PendingSelect => SelectPerformsIff(env, held);
      case _ => CommitPerformsIff(env, held);
    }
  }

  lemma TapOutcome(env: Env, e: Engine)
    ensures var (e', out) := e.ConfirmTap(env);
      var tapped := e.(machine := e.machine.AfterTap());
      if e.pending.kind.PendingFill? && tapped.machine.ctx.state.Unlocked? then (e', out) == tapped.TypePending(env)
      else !Typed(out) && e'.machine in {e.machine, tapped.machine}
  {
  }

  /** A tap types exactly when that was to be seen before. */
  lemma TapTypesIff(env: Env, e: Engine)
    ensures var (e', out) := e.ConfirmTap(env);
      && (Typed(out) <==> TapWillType(env, e))
      && (e'.machine == e.machine || SameLock(e.machine.AfterTap(), e'.machine, e.machine.AfterTap().ctx.state))
  {
    TapOutcome(env, e);
    TypeTypesIff(env, e.(machine := e.machine.AfterTap()));
  }

  // ---- the meaning of the lock flags ----------------------------------------------

  /** What touching keeps. */
  lemma GestureKeepsLock(m: Machine)
    ensures SameLock(m, m.AfterHold(), m.AfterHold().ctx.state) && SameLock(m, m.AfterTap(), m.AfterTap().ctx.state)
    ensures LockoutLaws.Coherent(m.ctx) ==>
      LockoutLaws.Coherent(m.AfterHold().ctx) && LockoutLaws.Coherent(m.AfterTap().ctx)
    ensures m.AfterHold().ctx.state.LockedOut? == m.AfterTap().ctx.state.LockedOut? == m.ctx.state.LockedOut?
    ensures !m.ctx.unlocked ==> m.AfterHold().ctx.state == m.AfterTap().ctx.state == m.ctx.state
  {
  }

  lemma CoherentUnlessReopened(was: Machine, m: Machine, performed: bool)
    requires LockoutLaws.Coherent(was.ctx)
    requires SameLock(was, m, if performed then Unlocked else was.ctx.state)
    ensures LockoutLaws.Coherent(m.ctx) <==> was.ctx.unlocked || !performed
  {
  }

  /** A bare hold keeps the meaning of the lock flags if and only if the device is
      unlocked or the pending request is not one the hold will perform. */
  lemma HoldIsSafeIff(env: Env, e: Engine)
    requires LockoutLaws.Coherent(e.machine.ctx)
    ensures LockoutLaws.Coherent(e.ConfirmHold(env).0.machine.ctx)
       <==> e.machine.ctx.unlocked || !HoldWillPerform(env, e)
  {
    HoldPerformsIff(env, e);
    GestureKeepsLock(e.machine);
    if !e.pending.kind.NoAction? {
      CoherentUnlessReopened(e.machine.AfterHold(), e.ConfirmHold(env).0.machine, HoldWillPerform(env, e));
    }
  }

  lemma TapIsSafe(env: Env, e: Engine)
    requires LockoutLaws.Coherent(e.machine.ctx)
    ensures LockoutLaws.Coherent(e.ConfirmTap(env).0.machine.ctx)
    ensures Typed(e.ConfirmTap(env).1) ==> e.machine.ctx.unlocked && !e.machine.ctx.wiped
  {
    TapTypesIff(env, e);
    GestureKeepsLock(e.machine);
  }

  /** A command keeps the lock as it is but for a prompt on an unlocked device, types
      nothing, and is allowed only on an unlocked device. */
  lemma HandleIsSafe(env: Env, e: Engine, cmd: Command, aad: Aad)
    ensures var (e', out) := e.HandleCommand(env, cmd, aad);
      && !Typed(out)
      && (out.allowed ==> e.machine.SensitiveReady())
      && (e'.machine == e.machine
          || (e.machine.SensitiveReady() &&
              (SameLock(e.machine, e'.machine, e.machine.ctx.state) || SameLock(e.machine, e'.machine, PromptFill)
               || SameLock(e.machine, e'.machine, SelectCredential))))
  {
    GateOpens(e, cmd);
    RequestPrompts(env, e.Gate(cmd).0, cmd, aad);
  }

  lemma HandleKeepsCoherent(env: Env, e: Engine, cmd: Command, aad: Aad)
    requires LockoutLaws.Coherent(e.machine.ctx)
    ensures var (e', out) := e.HandleCommand(env, cmd, aad);
      && LockoutLaws.Coherent(e'.machine.ctx) && e'.machine.ctx.unlocked == e.machine.ctx.unlocked
      && SameLock(e.machine, e'.machine, e'.machine.ctx.state)
  {
    HandleIsSafe(env, e, cmd, aad);
  }

  lemma DeviceCallIsSafe(env: Env, e: Engine, cmd: Command, aad: Aad)
    requires LockoutLaws.Coherent(e.machine.ctx)
    ensures var (e', out) := e.DeviceCall(env, cmd, aad);
      && LockoutLaws.Coherent(e'.machine.ctx) && SameLock(e.machine, e'.machine, e'.machine.ctx.state)
      && (Typed(out) ==> e.machine.ctx.unlocked && !e.machine.ctx.wiped)
  {
    HandleIsSafe(env, e, cmd, aad);
    HandleKeepsCoherent(env, e, cmd, aad);
    var (mid, out) := e.HandleCommand(env, cmd, aad);
    if out.allowed {
      HoldIsSafeIff(env, mid);
      HoldPerformsIff(env, mid);
      GestureKeepsLock(mid.machine);
    }
  }

  /** A bare hold that does no harm to the lock. */
  predicate HoldSafe(env: Env, e: Engine, ev: Event) {
    ev.Hold? ==> e.machine.ctx.unlocked || !HoldWillPerform(env, e)
  }

  lemma StepIsSafeIff(env: Env, e: Engine, ev: Event)
    requires LockoutLaws.Coherent(e.machine.ctx)
    ensures var (e', out) := Step(env, e, ev);
      && (LockoutLaws.Coherent(e'.machine.ctx) <==> HoldSafe(env, e, ev))
      && (HoldSafe(env, e, ev) && Typed(out) ==> e.machine.ctx.unlocked && !e.machine.ctx.wiped)
  {
    if DeviceCommand(e, ev).Some? {
      DeviceCallIsSafe(env, e, DeviceCommand(e, ev).value, ev.aad);
    } else if ev.CommandIn? {
      HandleIsSafe(env, e, ev.cmd, ev.aad);
      HandleKeepsCoherent(env, e, ev.cmd, ev.aad);
    } else if ev.Tap? {
      TapIsSafe(env, e);
    } else if ev.Hold? {
      HoldIsSafeIff(env, e);
      HoldPerformsIff(env, e);
    } else if ev.UnlockWithPin? {
      LockoutLaws.TryUnlockKeepsCoherent(e.machine, ev.pin, env.hash16);
    }
  }

  /** Every bare hold of a run came on an unlocked device or performed nothing. */
  predicate HoldsAreSafe(env: Env, e: Engine, events: seq<Event>)
    decreases |events|
  {
    events != [] ==>
      var before := events[..|events| - 1];
      HoldsAreSafe(env, e, before) && HoldSafe(env, Run(env, e, before), events[|events| - 1])
  }

  /** The lock flags keep their meaning all along a run. */
  predicate StaysCoherent(env: Env, e: Engine, events: seq<Event>)
    decreases |events|
  {
    && LockoutLaws.Coherent(Run(env, e, events).machine.ctx)
    && (events != [] ==> StaysCoherent(env, e, events[..|events| - 1]))
  }

  /** Over every run of commands, taps, holds, the one-call API, the buttons, unlocking,
      locking, ticks and settings: the flag `unlocked` says exactly that the state is
      neither LOCKED nor LOCKED_OUT, and LOCKED_OUT exactly that the device is wiped or
      has ticks to wait, all along the run, if and only if every bare hold in it came
      on an unlocked device or performed nothing; and then text is typed only on a
      device that is unlocked and not wiped. */
  lemma {:induction false} DeviceSafety(env: Env, e: Engine, events: seq<Event>)
    requires LockoutLaws.Coherent(e.machine.ctx)
    ensures StaysCoherent(env, e, events) <==> HoldsAreSafe(env, e, events)
    ensures HoldsAreSafe(env, e, events) && events != [] && Typed(LastResult(env, e, events)) ==>
      var before := Run(env, e, events[..|events| - 1]).machine.ctx;
      before.unlocked && !before.wiped
    decreases |events|
  {
    if events != [] {
      var before := events[..|events| - 1];
      DeviceSafety(env, e, before);
      if HoldsAreSafe(env, e, before) {
        StepIsSafeIff(env, Run(env, e, before), events[|events| - 1]);
      }
    }
  }

  /** A run without bare holds is one of those. */
  lemma {:induction false} NoBareHolds(env: Env, e: Engine, events: seq<Event>)
    requires forall i :: 0 <= i < |events| ==> !events[i].Hold?
    ensures HoldsAreSafe(env, e, events)
    decreases |events|
  {
    if events != [] {
      NoBareHolds(env, e, events[..|events| - 1]);
    }
  }

  /** So the one-call API, the buttons, commands and taps alone are safe without any
      condition: the flags keep their meaning, and text is typed only on a device that
      is unlocked and not wiped. */
  lemma DeviceApiSafety(env: Env, e: Engine, events: seq<Event>)
    requires LockoutLaws.Coherent(e.machine.ctx)
    requires forall i :: 0 <= i < |events| ==> !events[i].Hold?
    ensures StaysCoherent(env, e, events)
    ensures events != [] && Typed(LastResult(env, e, events)) ==>
      var before := Run(env, e, events[..|events| - 1]).machine.ctx;
      before.unlocked && !before.wiped
  {
    NoBareHolds(env, e, events);
    DeviceSafety(env, e, events);
  }

  // ---- output while locked --------------------------------------------------------

  /** Where the question of output starts: wiped is not unlocked, and a fill waits in
      the state UNLOCKED only on an unlocked device. */
  predicate OutputReady(e: Engine) {
    && (e.machine.ctx.unlocked ==> !e.machine.ctx.wiped)
    && (e.pending.kind.PendingFill? && e.machine.ctx.state.Unlocked? ==> e.machine.ctx.unlocked)
  }

  /** Nothing was typed, or it was on an unlocked, unwiped device. */
  predicate OutputSafe(e: Engine, out: ActionResult) {
    Typed(out) ==> e.machine.ctx.unlocked && !e.machine.ctx.wiped
  }

  lemma HandleKeepsReady(env: Env, e: Engine, cmd: Command, aad: Aad)
    requires OutputReady(e)
    ensures OutputReady(e.HandleCommand(env, cmd, aad).0)
  {
    HandleIsSafe(env, e, cmd, aad);
    HandleAnswers(env, e, cmd, aad);
  }

  lemma HoldKeepsReady(env: Env, e: Engine)
    requires OutputReady(e)
    ensures OutputReady(e.ConfirmHold(env).0)
    ensures OutputSafe(e, e.ConfirmHold(env).1) <==> e.machine.ctx.unlocked || !HoldWillType(env, e)
  {
    HoldPerformsIff(env, e);
    HoldHolds(env, e);
    GestureKeepsLock(e.machine);
  }

  lemma TapKeepsReady(env: Env, e: Engine)
    requires OutputReady(e)
    ensures OutputReady(e.ConfirmTap(env).0) && OutputSafe(e, e.ConfirmTap(env).1)
  {
    TapTypesIff(env, e);
    TapLeavesVault(env, e);
    GestureKeepsLock(e.machine);
  }

  lemma CallKeepsReady(env: Env, e: Engine, cmd: Command, aad: Aad)
    requires OutputReady(e)
    ensures OutputReady(e.DeviceCall(env, cmd, aad).0) && OutputSafe(e, e.DeviceCall(env, cmd, aad).1)
  {
    HandleIsSafe(env, e, cmd, aad);
    HandleKeepsReady(env, e, cmd, aad);
    HoldKeepsReady(env, e.HandleCommand(env, cmd, aad).0);
  }

  lemma StepTypesSafelyIff(env: Env, e: Engine, ev: Event)
    requires OutputReady(e)
    ensures OutputReady(Step(env, e, ev).0)
    ensures OutputSafe(e, Step(env, e, ev).1)
       <==> (ev.Hold? ==> e.machine.ctx.unlocked || !HoldWillType(env, e))
  {
    if DeviceCommand(e, ev).Some? {
      CallKeepsReady(env, e, DeviceCommand(e, ev).value, ev.aad);
    } else if ev.CommandIn? {
      HandleIsSafe(env, e, ev.cmd, ev.aad);
      HandleKeepsReady(env, e, ev.cmd, ev.aad);
    } else if ev.Tap? {
      TapKeepsReady(env, e);
    } else if ev.Hold? {
      HoldKeepsReady(env, e);
    }
  }

  /** Every text a run typed came on an unlocked, unwiped device. */
  predicate TypesSafely(env: Env, e: Engine, events: seq<Event>)
    decreases |events|
  {
    events != [] ==>
      var before := events[..|events| - 1];
      TypesSafely(env, e, before) && OutputSafe(Run(env, e, before), LastResult(env, e, events))
  }

  /** Every bare hold of a run came on an unlocked device or had no text to type. */
  predicate HoldsTypeSafely(env: Env, e: Engine, events: seq<Event>)
    decreases |events|
  {
    events != [] ==>
      var before := events[..|events| - 1];
      && HoldsTypeSafely(env, e, before)
      && (events[|events| - 1].Hold? ==>
            Run(env, e, before).machine.ctx.unlocked || !HoldWillType(env, Run(env, e, before)))
  }

  /** No output while locked, exactly: over every run of all events, each text it types
      is typed on an unlocked, unwiped device if and only if every bare hold in it came
      on an unlocked device or had no text to type. */
  lemma {:induction false} NoOutputWhileLockedIff(env: Env, e: Engine, events: seq<Event>)
    requires OutputReady(e)
    ensures TypesSafely(env, e, events) <==> HoldsTypeSafely(env, e, events)
    ensures OutputReady(Run(env, e, events))
    decreases |events|
  {
    if events != [] {
      NoOutputWhileLockedIff(env, e, events[..|events| - 1]);
      StepTypesSafelyIff(env, Run(env, e, events[..|events| - 1]), events[|events| - 1]);
    }
  }

  // ---- where a bare hold does harm --------------------------------------------------

  /** A fill that was allowed, then a lock, then a hold: typed on the locked device
      unless the manual-popup gate is on, and the flags then contradict each other. */
  lemma FillLockHold(env: Env, e: Engine, cmd: Command, aad: Aad)
    requires LockoutLaws.Coherent(e.machine.ctx)
    requires cmd.kind.RequestFill? && e.HandleCommand(env, cmd, aad).1.allowed
    ensures var c := FindByOrigin(e.vault, cmd.origin);
      var locked := Step(env, Step(env, e, CommandIn(cmd, aad)).0, Event.Lock).0;
      var (held, out) := Step(env, locked, Event.Hold);
      && c.Some? && !locked.machine.ctx.unlocked && LockoutLaws.Coherent(locked.machine.ctx)
      && (out.performed <==> e.machine.settings.autoPopup || !e.machine.settings.manualPopupTouch)
      && (Typed(out) <==> out.performed && HasText(env, c.value))
      && (out.performed ==> held.machine.ctx.state.Unlocked? && !held.machine.ctx.unlocked)
  {
    AllowedFill(env, e, cmd, aad);
    HandleKeepsCoherent(env, e, cmd, aad);
    LockThenHold(env, e.HandleCommand(env, cmd, aad).0);
  }

  lemma LockThenHold(env: Env, e: Engine)
    requires LockoutLaws.Coherent(e.machine.ctx) && !e.pending.kind.NoAction?
    ensures var locked := Step(env, e, Event.Lock).0;
      var (held, out) := Step(env, locked, Event.Hold);
      && !locked.machine.ctx.unlocked && LockoutLaws.Coherent(locked.machine.ctx)
      && (out.performed <==> HoldWillPerform(env, e)) && (Typed(out) <==> HoldWillType(env, e))
      && (out.performed ==> held.machine.ctx.state.Unlocked? && !held.machine.ctx.unlocked)
  {
    HoldPerformsIff(env, e.(machine := e.machine.WithReset()));
  }

  lemma AllowedFill(env: Env, e: Engine, cmd: Command, aad: Aad)
    requires cmd.kind.RequestFill? && e.HandleCommand(env, cmd, aad).1.allowed
    ensures var c, e' := FindByOrigin(e.vault, cmd.origin), e.HandleCommand(env, cmd, aad).0;
      && c.Some? && e'.pending == Pending(PendingFill, c.value, cmd, false, 0) && !e'.armed
      && env.Load(c.value).Some? && e'.machine.settings == e.machine.settings
      && e'.machine.ctx.state.PromptFill? && e'.machine.ctx.unlocked
  {
    GateOpens(e, cmd);
  }

  /** A fill that was allowed, then two taps: typed whether or not the manual-popup
      gate is on, because a tap does not look at it. */
  lemma FillTapTap(env: Env, e: Engine, cmd: Command, aad: Aad)
    requires cmd.kind.RequestFill? && e.HandleCommand(env, cmd, aad).1.allowed
    ensures var c := FindByOrigin(e.vault, cmd.origin);
      var tapped := Step(env, Step(env, e, CommandIn(cmd, aad)).0, Event.Tap).0;
      c.Some? && !tapped.armed && (Typed(Step(env, tapped, Event.Tap).1) <==> HasText(env, c.value))
  {
    AllowedFill(env, e, cmd, aad);
    var filled := e.HandleCommand(env, cmd, aad).0;
    assert filled.machine.AfterTap().ctx.state.ConfirmType?;
    TapTypesIff(env, filled.ConfirmTap(env).0);
  }

  /** With the manual-popup gate on, what an event types: a hold only after the button,
      the one-call API never, and a tap regardless. */
  lemma GateHoldsIff(env: Env, e: Engine, ev: Event)
    requires !e.machine.settings.autoPopup && e.machine.settings.manualPopupTouch
    ensures Typed(Step(env, e, ev).1)
       <==> || (ev.Hold? && e.armed && e.pending.kind.PendingFill? && HasText(env, e.pending.credential))
            || (ev.Tap? && TapWillType(env, e))
  {
    if DeviceCommand(e, ev).Some? {
      GatedCallTypesNothing(env, e, DeviceCommand(e, ev).value, ev.aad);
    } else if ev.CommandIn? {
      HandleIsSafe(env, e, ev.cmd, ev.aad);
    } else if ev.Hold? {
      HoldPerformsIff(env, e);
    } else if ev.Tap? {
      TapTypesIff(env, e);
    }
  }

  lemma GatedCallTypesNothing(env: Env, e: Engine, cmd: Command, aad: Aad)
    requires !e.machine.settings.autoPopup && e.machine.settings.manualPopupTouch
    ensures !Typed(e.DeviceCall(env, cmd, aad).1)
  {
    HandleIsSafe(env, e, cmd, aad);
    HandleAnswers(env, e, cmd, aad);
    var (mid, out) := e.HandleCommand(env, cmd, aad);
    if out.allowed {
      HoldPerformsIff(env, mid);
      if cmd.kind.RequestFill? {
        AllowedFill(env, e, cmd, aad);
      }
    }
  }

  /** During a lockout guesses are refused, until a bare hold performs something. */
  lemma HoldReopensGuessingIff(env: Env, e: Engine)
    requires LockoutLaws.Coherent(e.machine.ctx) && e.machine.verifier.Some?
    requires e.machine.ctx.state.LockedOut? && !e.machine.ctx.wiped
    ensures !e.machine.GuessTaken()
    ensures e.ConfirmHold(env).0.machine.GuessTaken() <==> HoldWillPerform(env, e)
  {
    HoldPerformsIff(env, e);
    GestureKeepsLock(e.machine);
  }

  // ---- such fills exist ---------------------------------------------------------------

  const ORIGIN := "https://a"

  lemma OriginIsSafe(kind: CommandType, username: string, password: string)
    requires kind.RequestFill? && (username == "" || username == "ab") && (password == "" || password == "k")
    ensures Validated(Command(kind, 0, ORIGIN, username, password))
  {
    assert ORIGIN[5..8] == "://" && HasAt(ORIGIN, "://", 5);
    assert ORIGIN[..8] == "https://" && '@' !in ORIGIN;
  }

  lemma SampleLoads(env: Env, aad: Aad) returns (c: Credential)
    ensures HasOrigin(c, ORIGIN) && env.Load(c) == Some(Record(ORIGIN, "ab", "k", true))
  {
    var sealed := EncryptPassword(env.key, env.hash, aad, "k", CIPHERTEXT_SIZE);
    RoundTrip(env.key, env.hash, aad, "k", CIPHERTEXT_SIZE, RECORD_PASSWORD_SIZE);
    c := Credential(true, 0, ORIGIN, "ab", sealed.value, 0, 0);
  }

  lemma SampleFills(env: Env, e: Engine, aad: Aad, c: Credential)
    requires e.machine.SensitiveReady() && e.limiter == INITIAL
    requires FindByOrigin(e.vault, ORIGIN) == Some(c) && env.Load(c) == Some(Record(ORIGIN, "ab", "k", true))
    ensures e.HandleCommand(env, Command(RequestFill, 0, ORIGIN, "", ""), aad).1.allowed
  {
    var cmd := Command(RequestFill, 0, ORIGIN, "", "");
    OriginIsSafe(RequestFill, "", "");
    OriginIsSafe(RequestFill, "ab", "k");
    GateOpens(e, cmd);
    assert e.Gate(cmd).1.None?;
    assert e.machine.FillAccepted(env.Load(c).value, ORIGIN);
  }

  /** In every environment and under all settings there is an unlocked engine that
      allows a fill of a credential with text: `FillLockHold` and `FillTapTap` are
      about something. */
  lemma SomeFillIsAllowed(env: Env, aad: Aad, settings: Settings) returns (e: Engine, cmd: Command)
    ensures LockoutLaws.Coherent(e.machine.ctx) && e.machine.settings == settings
    ensures cmd.kind.RequestFill? && e.HandleCommand(env, cmd, aad).1.allowed
    ensures var c := FindByOrigin(e.vault, cmd.origin); c.Some? && HasText(env, c.value)
  {
    var c := SampleLoads(env, aad);
    var ctx := INITIAL_CONTEXT.(state := Unlocked, unlocked := true);
    cmd := Command(RequestFill, 0, ORIGIN, "", "");
    e := Engine([c], Machine(ctx, settings, None), NO_PENDING, None, false, 0, 0, INITIAL, None);
    assert FindByOrigin(e.vault, ORIGIN) == Some(c);
    SampleFills(env, e, aad, c);
  }
}
