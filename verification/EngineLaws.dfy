/** What the action engine keeps over every run: whose credential is typed, and which
    ids are in use. */
module EngineLaws {
  import opened Basics
  import opened CStrings
  import opened BrowserProtocol
  import opened StateMachine
  import opened Vaults
  import opened VaultLaws
  import opened Envelope
  import opened ActionEngine

  datatype Event =
    | CommandIn(cmd: Command, aad: Aad)
    | Tap
    | Hold
    | Tick
    | UnlockWithPin(pin: string)
    | Lock
    | ArmPopup
    | ChangePin(oldPin: string, newPin: string)
    | ApplySettings(settings: Settings)
    | DeviceSave(origin: string, username: string, password: string, aad: Aad)
    | DeviceFill(origin: string, aad: Aad)
    | DeviceGenerate(origin: string, username: string, aad: Aad)
    | DeviceSelect(aad: Aad)
    | DeviceSettings(settings: Settings)
    | ButtonPress(origin: string, aad: Aad)
    | ButtonHold

  /** The command that a one-call event hands to the engine, if it is one. */
  function DeviceCommand(e: Engine, ev: Event): Option<Command> {
    match ev
    case DeviceSave(origin, username, password, _) => Some(SaveCommand(origin, username, password))
    case DeviceFill(origin, _) => Some(FillCommand(origin))
    case DeviceGenerate(origin, username, _) => Some(GenerateCommand(origin, username))
    case DeviceSelect(_) => Some(EMPTY_COMMAND.(kind := RequestSelectNext))
    case ButtonPress(origin, _) =>
      if origin == "" || FindByOrigin(e.vault, origin).None? then None else Some(FillCommand(origin))
    case _ => None
  }

  /** The command an event puts through the gates, if any. */
  function CommandOf(e: Engine, ev: Event): Option<Command> {
    if ev.CommandIn? then Some(ev.cmd) else DeviceCommand(e, ev)
  }

  function WithMachine(e: Engine, m: Machine): (Engine, ActionResult) { (e.(machine := m), Say(Silent)) }

  function Step(env: Env, e: Engine, ev: Event): (Engine, ActionResult) {
    match ev
    case CommandIn(cmd, aad) => e.HandleCommand(env, cmd, aad)
    case Tap => e.ConfirmTap(env)
    case Hold => e.ConfirmHold(env)
    case Tick => WithMachine(e, e.machine.AfterTick())
    case UnlockWithPin(pin) => WithMachine(e, e.machine.AfterTryUnlock(pin, env.hash16))
    case Lock => WithMachine(e, e.machine.WithReset())
    case ArmPopup => (e.(armed := true), Say(Silent))
    case ChangePin(oldPin, newPin) => (e.ChangePin(env, oldPin, newPin), Say(Silent))
    case ApplySettings(s) => WithMachine(e, e.machine.AfterApplySettings(s))
    case DeviceSave(origin, username, password, aad) => e.DeviceSave(env, origin, username, password, aad)
    case DeviceFill(origin, aad) => e.DeviceFill(env, origin, aad)
    case DeviceGenerate(origin, username, aad) => e.DeviceGenerate(env, origin, username, aad)
    case DeviceSelect(aad) => e.DeviceSelect(env, aad)
    case DeviceSettings(s) => e.DeviceApplySettings(s)
    case ButtonPress(origin, aad) => e.ButtonPress(env, origin, aad)
    case ButtonHold => e.PopupOpen()
  }

  function Run(env: Env, e: Engine, events: seq<Event>): Engine
    decreases |events|
  {
    if events == [] then e
    else Step(env, Run(env, e, events[..|events| - 1]), events[|events| - 1]).0
  }

  /** The result of the last event of a run. */
  function LastResult(env: Env, e: Engine, events: seq<Event>): ActionResult
    requires events != []
  {
    Step(env, Run(env, e, events[..|events| - 1]), events[|events| - 1]).1
  }

  predicate Typed(out: ActionResult) { out.typedUsername != "" || out.typedPassword != "" }

  // ---- requests ------------------------------------------------

  /** `m` differs from `was` at most in the prompt it shows, in the selection, and in an
      idle time started over. */
  predicate SameLock(was: Machine, m: Machine, state: State) {
    && m.ctx.state == state && m.settings == was.settings && m.verifier == was.verifier
    && m.ctx.unlocked == was.ctx.unlocked && m.ctx.wiped == was.ctx.wiped
    && m.ctx.lockoutTicks == was.ctx.lockoutTicks && m.ctx.failedAttempts == was.ctx.failedAttempts
    && m.ctx.inactivity in {was.ctx.inactivity, 0}
  }

  /** Past the gates the device is unlocked, and the machine is as it was. */
  lemma GateOpens(e: Engine, cmd: Command)
    ensures var (e', refusal) := e.Gate(cmd);
      && e'.machine == e.machine && e'.vault == e.vault && e'.pending == e.pending
      && (refusal.None? ==> e.machine.SensitiveReady() && Validated(cmd))
  {
  }

  lemma RequestPrompts(env: Env, e: Engine, cmd: Command, aad: Aad)
    ensures var (e', out) := e.RequestFill(env, cmd);
      && !Typed(out)
      && (SameLock(e.machine, e'.machine, e.machine.ctx.state) || SameLock(e.machine, e'.machine, PromptFill))
    ensures var (e', out) := e.RequestSave(env, cmd, aad); !Typed(out) && e'.machine == e.machine
    ensures var (e', out) := e.RequestGenerate(env, cmd, aad); !Typed(out) && e'.machine == e.machine
    ensures var (e', out) := e.RequestSelect();
      !Typed(out) && (e' == e || SameLock(e.machine, e'.machine, SelectCredential))
  {
  }

  // ---- what a step does to the vault and the pending request ------------------------

  /** A command leaves the vault alone and the pending request as it was, or turned
      into a selection, or replaced by a checked fill or by a save with the next id. */
  ghost predicate Requested(env: Env, e: Engine, e': Engine, cmd: Command, aad: Aad) {
    && e'.vault == e.vault
    && (|| e'.pending == e.pending
        || e'.pending == e.pending.(kind := PendingSelect, index := e'.pending.index)
        || (&& e'.pending.kind.PendingFill? && e'.pending.command == cmd
            && cmd.kind.RequestFill? && Validated(cmd)
            && FindByOrigin(e.vault, cmd.origin) == Some(e'.pending.credential))
        || (&& e'.pending.kind in {PendingSave, PendingGenerate} && Validated(cmd)
            && e'.pending.kind == PendingFor(cmd.kind)
            && e'.pending.credential.origin == Clip(cmd.origin, ENTRY_ORIGIN_SIZE)
            && e'.pending.credential.username == Clip(cmd.username, ENTRY_USERNAME_SIZE)
            && e'.pending.credential.valid && e'.pending.credential.id == NextId(e.vault)
            && Sealed(env, e'.pending.credential, PasswordFor(env, cmd), aad)))
  }

  /** The password a save or generate command is about. */
  function PasswordFor(env: Env, cmd: Command): string {
    Clip(if cmd.kind.RequestGenerate? then env.generate(cmd.origin) else cmd.password, RECORD_PASSWORD_SIZE)
  }

  /** The credential holds the sealed form of a password of at least eight characters. */
  ghost predicate Sealed(env: Env, c: Credential, password: string, aad: Aad) {
    |password| >= PASSWORD_MIN_LENGTH
    && EncryptPassword(env.key, env.hash, aad, password, CIPHERTEXT_SIZE) == Some(c.ciphertext)
  }

  function PendingFor(kind: CommandType): PendingKind {
    match kind
    case RequestFill => PendingFill
    case RequestSave => PendingSave
    case RequestGenerate => PendingGenerate
    case RequestSelectNext => PendingSelect
    case NoCommand => NoAction
  }

  /** The vault key that a command saves under. */
  function SavedKey(cmd: Command): (string, string) {
    (Clip(cmd.origin, ENTRY_ORIGIN_SIZE), Clip(cmd.username, ENTRY_USERNAME_SIZE))
  }

  /** What a request that came through the gates leaves, and what it reports. */
  ghost predicate Answered(env: Env, e: Engine, cmd: Command, aad: Aad, e': Engine, out: ActionResult) {
    && Requested(env, e, e', cmd, aad) && !out.performed && !out.createdNew
    && (if out.allowed then e'.pending.kind == PendingFor(cmd.kind) else e'.pending == e.pending)
    && (out.allowed && cmd.kind.RequestFill? ==>
          e'.pending.command == cmd && FindByOrigin(e.vault, cmd.origin) == Some(e'.pending.credential))
    && (out.allowed && cmd.kind in {RequestSave, RequestGenerate} ==>
          && KeyOf(e'.pending.credential) == SavedKey(cmd)
          && Sealed(env, e'.pending.credential, PasswordFor(env, cmd), aad))
    && out.generatedValue == (if out.allowed && cmd.kind.RequestGenerate? then PasswordFor(env, cmd) else "")
    && (out.generatedPassword <==> out.allowed && cmd.kind.RequestGenerate?)
  }

  lemma FillAnswers(env: Env, e: Engine, cmd: Command, aad: Aad)
    requires cmd.kind.RequestFill? && Validated(cmd)
    ensures Answered(env, e, cmd, aad, e.RequestFill(env, cmd).0, e.RequestFill(env, cmd).1)
  {
  }

  lemma SaveAnswers(env: Env, e: Engine, cmd: Command, aad: Aad)
    requires cmd.kind.RequestSave? && Validated(cmd)
    ensures Answered(env, e, cmd, aad, e.RequestSave(env, cmd, aad).0, e.RequestSave(env, cmd, aad).1)
  {
  }

  lemma GenerateAnswers(env: Env, e: Engine, cmd: Command, aad: Aad)
    requires cmd.kind.RequestGenerate? && Validated(cmd)
    ensures Answered(env, e, cmd, aad, e.RequestGenerate(env, cmd, aad).0, e.RequestGenerate(env, cmd, aad).1)
  {
  }

  lemma SelectAnswers(env: Env, e: Engine, cmd: Command, aad: Aad)
    requires cmd.kind.RequestSelectNext?
    ensures Answered(env, e, cmd, aad, e.RequestSelect().0, e.RequestSelect().1)
  {
  }

  lemma HandleAnswers(env: Env, e: Engine, cmd: Command, aad: Aad)
    ensures Answered(env, e, cmd, aad, e.HandleCommand(env, cmd, aad).0, e.HandleCommand(env, cmd, aad).1)
  {
    GateOpens(e, cmd);
    var (g, refusal) := e.Gate(cmd);
    if refusal.None? {
      match cmd.kind {
        case RequestFill => FillAnswers(env, g, cmd, aad);
        case RequestSave => SaveAnswers(env, g, cmd, aad);
        case RequestGenerate => GenerateAnswers(env, g, cmd, aad);
        case RequestSelectNext => SelectAnswers(env, g, cmd, aad);
        case NoCommand =>
      }
    }
  }

  /** A hold commits the pending save, if that is what is pending, or leaves the
      vault alone; the request is then over or as it was. A new record is reported
      exactly when the vault grows. */
  ghost predicate Held(e: Engine, e': Engine, out: ActionResult) {
    && (e'.pending == e.pending || e'.pending == NO_PENDING)
    && (out.createdNew <==> |e'.vault| == |e.vault| + 1)
    && (if e'.vault == e.vault then true
        else e.pending.kind in {PendingSave, PendingGenerate} && UpsertSucceeds(e.vault, e.pending.credential)
             && e'.vault == Upserted(e.vault, e.pending.credential) && out.performed)
    && (out.performed ==> e'.pending == NO_PENDING)
    && (out.performed && e.pending.kind in {PendingSave, PendingGenerate} ==>
          UpsertSucceeds(e.vault, e.pending.credential) && e'.vault == Upserted(e.vault, e.pending.credential))
  }

  lemma HoldHolds(env: Env, e: Engine)
    ensures Held(e, e.ConfirmHold(env).0, e.ConfirmHold(env).1)
  {
  }

  lemma TapLeavesVault(env: Env, e: Engine)
    ensures var (e', out) := e.ConfirmTap(env);
      e'.vault == e.vault && (e'.pending == e.pending || e'.pending == NO_PENDING) && !out.createdNew
  {
  }

  // ---- fresh ids ------------------------------------------------------------------------

  predicate IsSave(p: Pending) { p.kind in {PendingSave, PendingGenerate} }

  /** The vault is keyed, its ids are distinct and at most `n`, and a pending save
      has an id above them all. */
  ghost predicate Sound(e: Engine, n: nat) {
    && Keyed(e.vault)
    && (forall i, j :: 0 <= i < j < |e.vault| ==> e.vault[i].id != e.vault[j].id)
    && (forall i :: 0 <= i < |e.vault| ==> e.vault[i].id <= n)
    && (IsSave(e.pending) ==>
          && Storable(e.pending.credential) && e.pending.credential.id <= n
          && forall i :: 0 <= i < |e.vault| ==> e.vault[i].id < e.pending.credential.id)
  }

  lemma NextIdSound(cs: seq<Credential>, n: nat)
    requires Keyed(cs) && n < UINT32_MAX && forall i :: 0 <= i < |cs| ==> cs[i].id <= n
    ensures NextId(cs) <= n + 1 && forall i :: 0 <= i < |cs| ==> cs[i].id < NextId(cs)
  {
    MaxIdIsMax(cs, |cs|);
  }

  lemma SoundHandle(env: Env, e: Engine, e': Engine, cmd: Command, aad: Aad, n: nat)
    requires Sound(e, n) && n < UINT32_MAX && Requested(env, e, e', cmd, aad)
    ensures Sound(e', n + 1)
  {
    NextIdSound(e.vault, n);
  }

  lemma SoundHold(e: Engine, e': Engine, out: ActionResult, n: nat)
    requires Sound(e, n) && Held(e, e', out)
    ensures Sound(e', n)
  {
    if e'.vault != e.vault {
      UpsertKeepsKeyed(e.vault, e.pending.credential);
    }
  }

  lemma SoundCall(env: Env, e: Engine, cmd: Command, aad: Aad, n: nat)
    requires Sound(e, n) && n < UINT32_MAX
    ensures var mid := e.HandleCommand(env, cmd, aad).0;
      Sound(mid, n + 1) && Sound(mid.ConfirmHold(env).0, n + 1)
  {
    var mid := e.HandleCommand(env, cmd, aad).0;
    HandleAnswers(env, e, cmd, aad);
    SoundHandle(env, e, mid, cmd, aad, n);
    HoldHolds(env, mid);
    SoundHold(mid, mid.ConfirmHold(env).0, mid.ConfirmHold(env).1, n + 1);
  }

  /** Nothing else matters to `Sound` than the vault and the pending request. */
  lemma SoundFrame(e: Engine, e': Engine, n: nat)
    requires Sound(e, n) && e'.vault == e.vault && (e'.pending == e.pending || e'.pending == NO_PENDING)
    ensures Sound(e', n + 1)
  {
  }

  lemma SoundStep(env: Env, e: Engine, ev: Event, n: nat)
    requires Sound(e, n) && n < UINT32_MAX
    ensures Sound(Step(env, e, ev).0, n + 1)
  {
    if CommandOf(e, ev).Some? {
      SoundCall(env, e, CommandOf(e, ev).value, ev.aad, n);
    } else if ev.Hold? {
      HoldHolds(env, e);
      SoundHold(e, e.ConfirmHold(env).0, e.ConfirmHold(env).1, n);
    } else {
      TapLeavesVault(env, e);
      SoundFrame(e, Step(env, e, ev).0, n);
    }
  }

  /** The engine as initialised over an empty vault. */
  predicate Initial(e: Engine) { e.vault == [] && e.pending == NO_PENDING }

  /** Over every run of fewer than 2^32 - 1 events: keys stay pairwise distinct, ids
      too, and a pending save's id exceeds every id in the vault. */
  lemma {:induction false} FreshIds(env: Env, e: Engine, events: seq<Event>)
    requires Initial(e) && |events| < UINT32_MAX
    ensures Sound(Run(env, e, events), |events|)
    decreases |events|
  {
    if events != [] {
      FreshIds(env, e, events[..|events| - 1]);
      SoundStep(env, Run(env, e, events[..|events| - 1]), events[|events| - 1], |events| - 1);
    }
  }

  ghost predicate GrowsIffCreated(e: Engine, e': Engine, out: ActionResult) {
    && |e.vault| <= |e'.vault| <= |e.vault| + 1
    && (out.createdNew <==> |e'.vault| == |e.vault| + 1)
  }

  lemma CallGrows(env: Env, e: Engine, cmd: Command, aad: Aad)
    ensures GrowsIffCreated(e, e.HandleCommand(env, cmd, aad).0, e.HandleCommand(env, cmd, aad).1)
    ensures GrowsIffCreated(e, e.DeviceCall(env, cmd, aad).0, e.DeviceCall(env, cmd, aad).1)
  {
    HandleAnswers(env, e, cmd, aad);
    HoldHolds(env, e.HandleCommand(env, cmd, aad).0);
  }

  /** Any event reports a new record exactly when the vault has one entry more. */
  lemma CreatedIffGrown(env: Env, e: Engine, ev: Event)
    ensures var (e', out) := Step(env, e, ev);
      && |e.vault| <= |e'.vault| <= |e.vault| + 1
      && (out.createdNew <==> |e'.vault| == |e.vault| + 1)
  {
    if CommandOf(e, ev).Some? {
      CallGrows(env, e, CommandOf(e, ev).value, ev.aad);
    } else if ev.Hold? {
      HoldHolds(env, e);
    } else {
      TapLeavesVault(env, e);
    }
  }

  // ---- origin binding -----------------------------------------------------------------------

  /** The origin and the stored credential that an event was allowed to fill. */
  function FillAllowed(env: Env, e: Engine, ev: Event): Option<(string, Credential)> {
    var cmd := CommandOf(e, ev);
    if cmd.None? || !cmd.value.kind.RequestFill? || !e.HandleCommand(env, cmd.value, ev.aad).1.allowed then None
    else
      var entry := FindByOrigin(e.vault, cmd.value.origin);
      if entry.None? then None else Some((cmd.value.origin, entry.value))
  }

  /** The last one over a run. */
  function LastFill(env: Env, e: Engine, events: seq<Event>): Option<(string, Credential)>
    decreases |events|
  {
    if events == [] then None
    else
      var before := events[..|events| - 1];
      var now := FillAllowed(env, Run(env, e, before), events[|events| - 1]);
      if now.Some? then now else LastFill(env, e, before)
  }

  /** A pending fill is for the origin and the credential last allowed, the
      credential is of that origin, and the origin passed validation. */
  ghost predicate Bound(p: Pending, last: Option<(string, Credential)>) {
    p.kind.PendingFill? ==>
      && last == Some((p.command.origin, p.credential))
      && p.credential.origin == p.command.origin
      && p.command.kind.RequestFill? && Validated(p.command)
  }

  /** The typed text is what the credential decrypts to. */
  ghost predicate TypesOut(env: Env, c: Credential, out: ActionResult) {
    var rec := env.Load(c);
    rec.Some? && out.typedUsername == Clip(rec.value.username, USERNAME_SIZE)
    && out.typedPassword == Clip(rec.value.password, PASSWORD_SIZE)
  }

  lemma HoldTypesPending(env: Env, e: Engine)
    ensures var (e', out) := e.ConfirmHold(env);
      && (Typed(out) ==> e.pending.kind.PendingFill?)
      && (Typed(out) || (e.pending.kind.PendingFill? && out.performed) ==> TypesOut(env, e.pending.credential, out))
  {
  }

  lemma TapTypesPending(env: Env, e: Engine)
    ensures var (e', out) := e.ConfirmTap(env);
      Typed(out) ==> e.pending.kind.PendingFill? && TypesOut(env, e.pending.credential, out)
  {
  }

  lemma HandleBinds(env: Env, e: Engine, ev: Event, cmd: Command, last: Option<(string, Credential)>)
    requires Bound(e.pending, last) && CommandOf(e, ev) == Some(cmd)
    ensures var now := FillAllowed(env, e, ev);
      Bound(e.HandleCommand(env, cmd, ev.aad).0.pending, if now.Some? then now else last)
  {
    HandleAnswers(env, e, cmd, ev.aad);
  }

  lemma HandleTypesNothing(env: Env, e: Engine, cmd: Command, aad: Aad)
    ensures !Typed(e.HandleCommand(env, cmd, aad).1)
  {
    GateOpens(e, cmd);
    RequestPrompts(env, e.Gate(cmd).0, cmd, aad);
  }

  lemma StepBinds(env: Env, e: Engine, ev: Event, last: Option<(string, Credential)>)
    requires Bound(e.pending, last)
    ensures var (e', out) := Step(env, e, ev);
      var now := FillAllowed(env, e, ev);
      var last' := if now.Some? then now else last;
      && Bound(e'.pending, last')
      && (Typed(out) ==> last'.Some? && last'.value.1.origin == last'.value.0
                         && TypesOut(env, last'.value.1, out))
  {
    if DeviceCommand(e, ev).Some? {
      var cmd := DeviceCommand(e, ev).value;
      HandleBinds(env, e, ev, cmd, last);
      HandleTypesNothing(env, e, cmd, ev.aad);
      var mid := e.HandleCommand(env, cmd, ev.aad).0;
      HoldHolds(env, mid);
      HoldTypesPending(env, mid);
    } else if ev.CommandIn? {
      HandleBinds(env, e, ev, ev.cmd, last);
      HandleTypesNothing(env, e, ev.cmd, ev.aad);
    } else if ev.Hold? {
      HoldHolds(env, e);
      HoldTypesPending(env, e);
    } else if ev.Tap? {
      TapLeavesVault(env, e);
      TapTypesPending(env, e);
    }
  }

  /** Under every interleaving of events: a pending fill is bound to the origin and
      the stored credential that were last allowed, and whatever text an event
      types is that credential's, so it belongs to that origin. */
  lemma {:induction false} OriginBinding(env: Env, e: Engine, events: seq<Event>)
    requires Initial(e)
    ensures Bound(Run(env, e, events).pending, LastFill(env, e, events))
    ensures events != [] && Typed(LastResult(env, e, events)) ==>
      var last := LastFill(env, e, events);
      last.Some? && last.value.1.origin == last.value.0 && TypesOut(env, last.value.1, LastResult(env, e, events))
    decreases |events|
  {
    if events != [] {
      var before := events[..|events| - 1];
      OriginBinding(env, e, before);
      StepBinds(env, Run(env, e, before), events[|events| - 1], LastFill(env, e, before));
    }
  }
}
