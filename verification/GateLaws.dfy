/** When a command passes the gates, when it is then allowed, and when a one-call
    operation is performed. */
module GateLaws {
  import opened Basics
  import opened CStrings
  import opened BrowserProtocol
  import opened StateMachine
  import opened Vaults
  import opened VaultLaws
  import opened Envelope
  import opened ActionEngine
  import opened EngineLaws
  import opened EngineLockLaws
  import opened EngineRateLaws

  // ---- the gates -------------------------------------------------------------------

  /** What it takes, of any command with any nonce. */
  predicate Passes(e: Engine, cmd: Command) {
    && (cmd.nonce == 0 || cmd.nonce > e.lastNonce)
    && e.machine.ctx.unlocked && !e.machine.ctx.wiped && !e.machine.ctx.state.LockedOut?
    && Admission(e, LimitKey(cmd)).allowed
    && Validated(cmd)
  }

  /** A command passes the gates if and only if its nonce is fresh or zero, the device is
      unlocked and neither wiped nor locked out, the limiter admits it, and it is valid.
      The gates keep the largest nonce seen, and take a call of the limiter and a tick of
      the clock for every command that is no replay on a device not wiped. */
  lemma GateIff(e: Engine, cmd: Command)
    ensures var (e', refusal) := e.Gate(cmd);
      && (refusal.None? <==> Passes(e, cmd))
      && e'.lastNonce == (if cmd.nonce > e.lastNonce then cmd.nonce else e.lastNonce)
      && (if (cmd.nonce == 0 || cmd.nonce > e.lastNonce) && !e.machine.ctx.wiped then
            e'.clock == Wrap32(e.clock + 1) && e'.limiter == Admission(e, LimitKey(cmd)).entries
          else e'.clock == e.clock && e'.limiter == e.limiter)
      && e' == e.(lastNonce := e'.lastNonce, clock := e'.clock, limiter := e'.limiter)
  {
  }

  /** Why a command is refused: the first of the reasons, in this order. */
  lemma RefusalIff(e: Engine, cmd: Command)
    ensures var refusal := e.Gate(cmd).1;
      var stale := 0 < cmd.nonce <= e.lastNonce;
      var admitted := Admission(e, LimitKey(cmd)).allowed;
      && (refusal == Some(ReplayBlocked) <==> stale)
      && (refusal == Some(DeviceWiped) <==> !stale && e.machine.ctx.wiped)
      && (refusal == Some(RateLimited(Admission(e, LimitKey(cmd)).retryAfter))
          <==> !stale && !e.machine.ctx.wiped && !admitted)
      && (refusal == Some(DeviceLocked(e.machine.ctx.lockoutTicks))
          <==> !stale && admitted && !e.machine.ctx.wiped && !e.machine.SensitiveReady())
      && (refusal == Some(Rejected(Check(cmd)))
          <==> !stale && admitted && e.machine.SensitiveReady() && !Validated(cmd))
  {
  }

  // ---- the requests ------------------------------------------------------------------

  /** What a stored credential must be for a fill to accept it. */
  predicate Fillable(env: Env, c: Credential) {
    && Storable(c) && env.Load(c).Some?
    && Validated(Command(RequestFill, 0, c.origin, c.username, Clip(env.Load(c).value.password, PASSWORD_SIZE)))
  }

  lemma FillAcceptedIff(env: Env, m: Machine, c: Credential)
    requires Storable(c) && env.Load(c).Some? && m.SensitiveReady()
    ensures m.FillAccepted(env.Load(c).value, c.origin) <==> Fillable(env, c)
  {
  }

  /** A fill is allowed if and only if it passes and the first credential stored for its
      origin can be filled. */
  lemma FillAllowedIff(env: Env, e: Engine, cmd: Command, aad: Aad)
    requires Keyed(e.vault) && cmd.kind.RequestFill?
    ensures var c := FindByOrigin(e.vault, cmd.origin);
      e.HandleCommand(env, cmd, aad).1.allowed <==> Passes(e, cmd) && c.Some? && Fillable(env, c.value)
  {
    GateIff(e, cmd);
    var c := FindByOrigin(e.vault, cmd.origin);
    if Passes(e, cmd) && c.Some? {
      assert c.value.origin == cmd.origin;
      if env.Load(c.value).Some? {
        FillAcceptedIff(env, e.machine, c.value);
      }
    }
  }

  lemma StashIff(env: Env, origin: string, username: string, password: string, aad: Aad, epoch: uint32, id: uint32)
    requires |password| >= PASSWORD_MIN_LENGTH
    ensures env.Stash(origin, username, password, aad, epoch, id).Some? <==> |password| <= 48
  {
  }

  /** A save is allowed if and only if it passes and its password has 8 to 48 characters;
      being common or used before does not matter, but is reported and remembered. */
  lemma SaveAllowedIff(env: Env, e: Engine, cmd: Command, aad: Aad)
    requires cmd.kind.RequestSave?
    ensures var (e', out) := e.HandleCommand(env, cmd, aad);
      var password := PasswordFor(env, cmd);
      && (out.allowed <==> Passes(e, cmd) && 8 <= |password| <= 48)
      && (Passes(e, cmd) ==> out.commonWarning == env.common(password) && out.reusedWarning == env.reused(password))
      && (out.allowed ==>
            && e'.pending.kind.PendingSave? && e'.pending.command == cmd
            && e'.pending.overrideWithHold == (env.common(password) || env.reused(password)))
  {
    GateIff(e, cmd);
    var g := e.Gate(cmd).0;
    if Passes(e, cmd) && |PasswordFor(env, cmd)| >= PASSWORD_MIN_LENGTH {
      StashIff(env, cmd.origin, cmd.username, PasswordFor(env, cmd), aad, g.clock, NextId(g.vault));
    }
  }

  /** A generate command is allowed if and only if it passes and what the generator gives
      has 8 to 48 characters. */
  lemma GenerateAllowedIff(env: Env, e: Engine, cmd: Command, aad: Aad)
    requires cmd.kind.RequestGenerate?
    ensures var (e', out) := e.HandleCommand(env, cmd, aad);
      && (out.allowed <==> Passes(e, cmd) && 8 <= |PasswordFor(env, cmd)| <= 48)
      && (out.allowed ==> e'.pending.kind.PendingGenerate? && e'.pending.command == cmd)
  {
    GateIff(e, cmd);
    var g := e.Gate(cmd).0;
    if Passes(e, cmd) && |PasswordFor(env, cmd)| >= PASSWORD_MIN_LENGTH {
      StashIff(env, cmd.origin, cmd.username, PasswordFor(env, cmd), aad, g.clock, NextId(g.vault));
    }
  }

  lemma SelectAllowedIff(env: Env, e: Engine, cmd: Command, aad: Aad)
    requires cmd.kind.RequestSelectNext?
    ensures var (e', out) := e.HandleCommand(env, cmd, aad);
      && (out.allowed <==> Passes(e, cmd) && e.vault != [])
      && (out.allowed ==>
            && e'.pending.kind.PendingSelect? && e'.vault == e.vault
            && e'.pending.index == Wrap32(e.machine.ctx.selected + 1) % |e.vault|)
  {
    GateIff(e, cmd);
  }

  lemma RequestsStamp(env: Env, e: Engine, cmd: Command, aad: Aad)
    ensures var (e', out) := e.RequestSave(env, cmd, aad);
      out.allowed ==> e'.pending.credential.createdAt == e'.pending.credential.updatedAt == e.clock
                      && e'.clock == Wrap32(e.clock + 1)
    ensures var (e', out) := e.RequestGenerate(env, cmd, aad);
      out.allowed ==> e'.pending.credential.createdAt == e'.pending.credential.updatedAt == e.clock
                      && e'.clock == Wrap32(e.clock + 1)
  {
  }

  /** A saved or generated credential is stamped with the clock of its request, which
      moves on, so that no two requests are stamped alike until the clock wraps. */
  lemma RequestStamps(env: Env, e: Engine, cmd: Command, aad: Aad)
    requires cmd.kind in {RequestSave, RequestGenerate} && e.HandleCommand(env, cmd, aad).1.allowed
    ensures var e' := e.HandleCommand(env, cmd, aad).0;
      && e'.pending.credential.createdAt == e'.pending.credential.updatedAt == Wrap32(e.clock + 1)
      && e'.clock == Wrap32(Wrap32(e.clock + 1) + 1)
  {
    GateIff(e, cmd);
    RequestsStamp(env, e.Gate(cmd).0, cmd, aad);
  }

  /** What one answer to a request reports, and does to the popup button. */
  ghost predicate Reports(e: Engine, cmd: Command, e': Engine, out: ActionResult) {
    && out.touchRequired == (if cmd.kind.RequestFill? then e.machine.settings.manualPopupTouch else true)
    && out.savePromptRecommended == (!cmd.kind.RequestSelectNext? && e.machine.settings.autoPopup)
    && out.selectedNext == cmd.kind.RequestSelectNext?
    && e'.armed == (cmd.kind.RequestSelectNext? && e.armed)
    && (!cmd.kind.RequestSelectNext? ==> e'.pending.command == cmd && e'.pending.index == 0)
    && e'.lastSelected == e.lastSelected
  }

  lemma FillReports(env: Env, e: Engine, cmd: Command)
    requires cmd.kind.RequestFill? && e.RequestFill(env, cmd).1.allowed
    ensures Reports(e, cmd, e.RequestFill(env, cmd).0, e.RequestFill(env, cmd).1)
  {
  }

  lemma SaveReports(env: Env, e: Engine, cmd: Command, aad: Aad)
    requires cmd.kind.RequestSave? && e.RequestSave(env, cmd, aad).1.allowed
    ensures Reports(e, cmd, e.RequestSave(env, cmd, aad).0, e.RequestSave(env, cmd, aad).1)
  {
  }

  lemma GenerateReports(env: Env, e: Engine, cmd: Command, aad: Aad)
    requires cmd.kind.RequestGenerate? && e.RequestGenerate(env, cmd, aad).1.allowed
    ensures Reports(e, cmd, e.RequestGenerate(env, cmd, aad).0, e.RequestGenerate(env, cmd, aad).1)
  {
  }

  lemma SelectReports(e: Engine, cmd: Command)
    requires cmd.kind.RequestSelectNext? && e.RequestSelect().1.allowed
    ensures Reports(e, cmd, e.RequestSelect().0, e.RequestSelect().1)
  {
  }

  /** What a request that was allowed asks of the user, recommends, and does to the popup
      button: a fill, save or generate uses up a press made before it. */
  lemma RequestReports(env: Env, e: Engine, cmd: Command, aad: Aad)
    requires e.HandleCommand(env, cmd, aad).1.allowed
    ensures Reports(e, cmd, e.HandleCommand(env, cmd, aad).0, e.HandleCommand(env, cmd, aad).1)
  {
    GateIff(e, cmd);
    var g := e.Gate(cmd).0;
    match cmd.kind {
      case RequestFill => FillReports(env, g, cmd);
      case RequestSave => SaveReports(env, g, cmd, aad);
      case RequestGenerate => GenerateReports(env, g, cmd, aad);
      case RequestSelectNext => SelectReports(g, cmd);
      case NoCommand =>
    }
  }

  // ---- how requests end ----------------------------------------------------------------

  /** A hold ends a pending fill exactly if the popup gate lets it through, whether or not
      the credential could be decrypted; with the gate on it uses up the press. */
  lemma HoldEndsFillIff(env: Env, e: Engine)
    requires e.pending.kind.PendingFill?
    ensures var e', out := e.ConfirmHold(env).0, e.ConfirmHold(env).1;
      && (if GateOpen(e) then e'.pending == NO_PENDING else e'.pending == e.pending)
      && (!e.machine.settings.autoPopup && e.machine.settings.manualPopupTouch ==> !e'.armed)
      && (GateOpen(e) && !out.performed ==> out.message == DecryptFailed)
  {
  }

  /** A tap on a pending fill asks for another one exactly if it leads from the prompt to
      the confirmation, and otherwise ends the request, typed or not. */
  lemma TapEndsFillIff(env: Env, e: Engine)
    requires e.pending.kind.PendingFill?
    ensures var (e', out) := e.ConfirmTap(env);
      var asked := e.machine.AfterTap().ctx.state.ConfirmType?;
      && (if asked then e'.pending == e.pending else e'.pending == NO_PENDING)
      && (asked <==> out.message == TapAgainToType) && (asked ==> out.allowed && !out.performed)
  {
  }

  /** A tap neither carries out nor ends any other request, but asks for the hold. */
  lemma TapAsksForHold(env: Env, e: Engine)
    requires e.pending.kind !in {NoAction, PendingFill}
    ensures var (e', out) := e.ConfirmTap(env);
      && e' == e.(machine := e.machine.AfterTap())
      && out.allowed && out.touchRequired && !out.performed && !Typed(out)
      && (out.selectedNext <==> e.pending.kind.PendingSelect?)
  {
  }

  /** A hold ends a pending save or generate exactly if it stores it: one that could not be
      stored may be tried again. It ends a selection in any case. */
  lemma HoldEndsIff(env: Env, e: Engine)
    requires e.pending.kind in {PendingSave, PendingGenerate, PendingSelect}
    ensures var (e', out) := e.ConfirmHold(env);
      && e'.pending == (if out.performed || e.pending.kind.PendingSelect? then NO_PENDING else e.pending)
      && e'.armed == e.armed
      && (!out.performed ==> e' == e.(machine := e.machine.AfterHold(), pending := e'.pending))
  {
  }

  /** A one-call operation that is not allowed leaves the pending request and the vault as
      they were; one that is allowed ends the request it made, unless it could not store it
      or the popup gate was on. */
  lemma CallEndsIff(env: Env, e: Engine, cmd: Command, aad: Aad)
    ensures var (e', out) := e.DeviceCall(env, cmd, aad);
      var allowed := e.HandleCommand(env, cmd, aad).1.allowed;
      && (!allowed ==> e'.pending == e.pending && e'.vault == e.vault && !out.performed)
      && (out.performed ==> e'.pending == NO_PENDING)
  {
    HandleAnswers(env, e, cmd, aad);
    HoldHolds(env, e.HandleCommand(env, cmd, aad).0);
  }

  /** A hold that stores reports an update exactly if the key was there before, and a new
      record exactly if it was not. */
  lemma StoreReports(env: Env, e: Engine)
    requires e.pending.kind in {PendingSave, PendingGenerate}
    ensures var out := e.ConfirmHold(env).1;
      var known := Exists(e.vault, e.pending.credential.origin, e.pending.credential.username);
      && (out.updatedExisting <==> out.performed && known)
      && (out.createdNew <==> out.performed && !known)
  {
  }

  // ---- the one-call operations -----------------------------------------------------------

  lemma SealedOpens(env: Env, c: Credential, password: string, aad: Aad)
    requires CText(password) && Sealed(env, c, password, aad)
    ensures DecryptPassword(env.key, env.hash, c.ciphertext, RECORD_PASSWORD_SIZE) == Some(password)
  {
    RoundTrip(env.key, env.hash, aad, password, CIPHERTEXT_SIZE, RECORD_PASSWORD_SIZE);
  }

  /** Nothing is performed of a command that did not pass. */
  lemma PerformedPassed(env: Env, e: Engine, cmd: Command, aad: Aad)
    requires e.DeviceCall(env, cmd, aad).1.performed
    ensures Passes(e, cmd) && e.HandleCommand(env, cmd, aad).1.allowed
  {
    GateIff(e, cmd);
    HandlePerformsNothing(env, e, cmd, aad);
  }

  lemma HandlePerformsNothing(env: Env, e: Engine, cmd: Command, aad: Aad)
    ensures var (e', out) := e.HandleCommand(env, cmd, aad); e'.vault == e.vault && !out.performed
  {
    HandleAnswers(env, e, cmd, aad);
  }

  lemma CommitRoom(cs: seq<Credential>, c: Credential, cmd: Command)
    requires c.valid && KeyOf(c) == SavedKey(cmd)
    ensures UpsertSucceeds(cs, c) <==> Exists(cs, SavedKey(cmd).0, SavedKey(cmd).1) || |cs| < CAPACITY
  {
  }

  /** A one-call save or generate is performed if and only if it passes, its password has
      8 to 48 characters, and its key is stored already or there is room. */
  lemma StorePerformsIff(env: Env, e: Engine, cmd: Command, aad: Aad)
    requires cmd.kind in {RequestSave, RequestGenerate} && CText(PasswordFor(env, cmd))
    ensures e.DeviceCall(env, cmd, aad).1.performed
       <==> && Passes(e, cmd) && 8 <= |PasswordFor(env, cmd)| <= 48
            && (Exists(e.vault, SavedKey(cmd).0, SavedKey(cmd).1) || |e.vault| < CAPACITY)
  {
    var (mid, out) := e.HandleCommand(env, cmd, aad);
    if cmd.kind.RequestSave? {
      SaveAllowedIff(env, e, cmd, aad);
    } else {
      GenerateAllowedIff(env, e, cmd, aad);
    }
    HandleAnswers(env, e, cmd, aad);
    if out.allowed {
      StoredIsValid(env, e, cmd, aad);
      SealedOpens(env, mid.pending.credential, PasswordFor(env, cmd), aad);
      CommitRoom(e.vault, mid.pending.credential, cmd);
      HoldPerformsIff(env, mid);
    }
  }

  lemma StoredIsValid(env: Env, e: Engine, cmd: Command, aad: Aad)
    requires cmd.kind in {RequestSave, RequestGenerate} && e.HandleCommand(env, cmd, aad).1.allowed
    ensures e.HandleCommand(env, cmd, aad).0.pending.credential.valid
  {
    GateOpens(e, cmd);
  }

  /** The limiter admits the call, the device is unlocked and neither locked out nor
      wiped, and the manual-popup gate is off. */
  predicate FillAdmitted(e: Engine, origin: string) {
    && Admission(e, origin).allowed
    && e.machine.SensitiveReady()
    && (e.machine.settings.autoPopup || !e.machine.settings.manualPopupTouch)
  }

  lemma FillableIsValid(env: Env, c: Credential, nonce: uint32)
    requires Fillable(env, c)
    ensures Validated(Command(RequestFill, nonce, c.origin, "", "")) && c.origin != ""
  {
  }

  /** A one-call fill of the first credential stored for an origin is performed if and
      only if it is admitted and the credential can be filled. */
  lemma FillPerformsIff(env: Env, e: Engine, c: Credential, aad: Aad)
    requires Keyed(e.vault) && FindByOrigin(e.vault, c.origin) == Some(c)
    ensures e.DeviceFill(env, c.origin, aad).1.performed <==> FillAdmitted(e, c.origin) && Fillable(env, c)
  {
    var cmd := FillCommand(c.origin);
    assert cmd.origin == c.origin;
    FillAllowedIff(env, e, cmd, aad);
    HandleAnswers(env, e, cmd, aad);
    if Fillable(env, c) {
      FillableIsValid(env, c, 0);
      if Passes(e, cmd) {
        AllowedFill(env, e, cmd, aad);
        HoldPerformsIff(env, e.HandleCommand(env, cmd, aad).0);
      }
    }
  }

  // ---- nonces over runs -----------------------------------------------------------------

  lemma RequestsKeepNonce(env: Env, e: Engine, cmd: Command, aad: Aad)
    ensures e.RequestFill(env, cmd).0.lastNonce == e.lastNonce
    ensures e.RequestSave(env, cmd, aad).0.lastNonce == e.lastNonce
    ensures e.RequestGenerate(env, cmd, aad).0.lastNonce == e.lastNonce
    ensures e.RequestSelect().0.lastNonce == e.lastNonce
  {
  }

  lemma ConfirmKeepsNonce(env: Env, e: Engine)
    ensures e.ConfirmHold(env).0.lastNonce == e.lastNonce
    ensures e.ConfirmTap(env).0.lastNonce == e.lastNonce
  {
  }

  lemma HandleNonce(env: Env, e: Engine, cmd: Command, aad: Aad)
    ensures e.HandleCommand(env, cmd, aad).0.lastNonce == if cmd.nonce > e.lastNonce then cmd.nonce else e.lastNonce
  {
    GateIff(e, cmd);
    RequestsKeepNonce(env, e.Gate(cmd).0, cmd, aad);
  }

  lemma StepNonce(env: Env, e: Engine, ev: Event)
    ensures Step(env, e, ev).0.lastNonce
         == if ev.CommandIn? && ev.cmd.nonce > e.lastNonce then ev.cmd.nonce else e.lastNonce
  {
    if CommandOf(e, ev).Some? {
      var cmd := CommandOf(e, ev).value;
      HandleNonce(env, e, cmd, ev.aad);
      ConfirmKeepsNonce(env, e.HandleCommand(env, cmd, ev.aad).0);
    } else {
      ConfirmKeepsNonce(env, e);
    }
  }

  /** Every command received had a nonce below `n`. */
  predicate NoncesBelow(events: seq<Event>, n: uint32) {
    forall i :: 0 <= i < |events| && events[i].CommandIn? ==> events[i].cmd.nonce < n
  }

  lemma NoncesBelowExtends(events: seq<Event>, n: uint32)
    requires events != []
    ensures var ev := events[|events| - 1];
      NoncesBelow(events, n) <==> NoncesBelow(events[..|events| - 1], n) && (ev.CommandIn? ==> ev.cmd.nonce < n)
  {
  }

  /** After any run a nonce is fresh exactly if it is above the one to begin with and
      above all that were received. */
  lemma {:induction false} FreshNonceIff(env: Env, e: Engine, events: seq<Event>, n: uint32)
    ensures n > Run(env, e, events).lastNonce <==> n > e.lastNonce && NoncesBelow(events, n)
    decreases |events|
  {
    if events != [] {
      FreshNonceIff(env, e, events[..|events| - 1], n);
      StepNonce(env, Run(env, e, events[..|events| - 1]), events[|events| - 1]);
      NoncesBelowExtends(events, n);
    }
  }

  /** Once a command with some nonce has been received, no later command whose nonzero
      nonce is not above it has any effect, whatever happened in between. */
  lemma ReplayHasNoEffect(env: Env, e: Engine, events: seq<Event>, i: nat, cmd: Command, aad: Aad)
    requires i < |events| && events[i].CommandIn? && 0 < cmd.nonce <= events[i].cmd.nonce
    ensures Run(env, e, events).HandleCommand(env, cmd, aad) == (Run(env, e, events), Say(ReplayBlocked))
  {
    FreshNonceIff(env, e, events, cmd.nonce);
    assert !NoncesBelow(events, cmd.nonce);
    ReplayIsBlocked(env, Run(env, e, events), cmd, aad);
  }

  lemma ReplayIsBlocked(env: Env, e: Engine, cmd: Command, aad: Aad)
    requires 0 < cmd.nonce <= e.lastNonce
    ensures e.HandleCommand(env, cmd, aad) == (e, Say(ReplayBlocked))
  {
  }

  /** After any run, a fill with a nonce above all that were received, for an origin whose
      first credential can be filled, is allowed exactly when the limiter admits it and
      the device is unlocked, not wiped and not locked out. */
  lemma FreshFillIsAllowedIff(env: Env, e: Engine, events: seq<Event>, n: uint32, c: Credential, aad: Aad)
    requires n > e.lastNonce && NoncesBelow(events, n)
    requires Keyed(Run(env, e, events).vault) && FindByOrigin(Run(env, e, events).vault, c.origin) == Some(c)
    requires Fillable(env, c)
    ensures var e' := Run(env, e, events);
      e'.HandleCommand(env, Command(RequestFill, n, c.origin, "", ""), aad).1.allowed
      <==> Admission(e', c.origin).allowed && e'.machine.SensitiveReady()
  {
    FreshNonceIff(env, e, events, n);
    FillableIsValid(env, c, n);
    FillAllowedIff(env, Run(env, e, events), Command(RequestFill, n, c.origin, "", ""), aad);
  }
}
