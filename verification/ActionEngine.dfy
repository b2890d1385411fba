/** action_engine.c: commands are gated, turned into one pending request, and
    carried out on a tap or hold. `Engine` is the whole state as a value - vault,
    device and the file's globals included - and `ActionEngine` the same state
    updated in place. */
module ActionEngine {
  import opened Basics
  import opened CStrings
  import opened BrowserProtocol
  import opened StateMachine
  import opened RateLimiting
  import opened Vaults
  import opened Envelope

  const COMMAND_WINDOW: uint32 := 60
  const COMMANDS_PER_WINDOW: uint32 := 30
  const PASSWORD_MIN_LENGTH: nat := 8
  const CIPHERTEXT_SIZE: nat := 192

  datatype PendingKind = NoAction | PendingFill | PendingSave | PendingGenerate | PendingSelect

  datatype Pending = Pending(
    kind: PendingKind,
    credential: Credential,
    command: Command,
    overrideWithHold: bool,
    index: nat)

  const NO_PENDING := Pending(NoAction, NO_CREDENTIAL, EMPTY_COMMAND, false, 0)

  datatype Message =
    | Silent
    | ReplayBlocked
    | DeviceWiped
    | RateLimited(ticks: uint32)
    | DeviceLocked(ticks: uint32)
    | Rejected(verdict: Verdict)
    | NoCredentialForOrigin
    | DecryptFailed
    | FillBlocked
    | TouchToConfirmFill
    | PasswordTooShort
    | PrepareSaveFailed
    | HoldToOverride
    | TouchToSave
    | GenerationFailed
    | PrepareGeneratedFailed
    | TouchToSaveGenerated
    | NoCredentials
    | HoldToConfirmSelection
    | UnsupportedCommand
    | DecryptPendingFailed
    | HoldRequiredToSave
    | VaultSaveFailed
    | CredentialSaved
    | NoPendingAction
    | TapAgainToType
    | TypedCredential
    | InvalidTransition
    | PressManualButton
    | SelectionFailed
    | CredentialSelected
    | SettingsPopupOpen
    | SettingsUpdated

  datatype ActionResult = ActionResult(
    allowed: bool,
    touchRequired: bool,
    performed: bool,
    savePromptRecommended: bool,
    commonWarning: bool,
    reusedWarning: bool,
    createdNew: bool,
    updatedExisting: bool,
    generatedPassword: bool,
    selectedNext: bool,
    typedUsername: string,
    typedPassword: string,
    generatedValue: string,
    message: Message)

  /** The zeroed result with a message. */
  function Say(message: Message): ActionResult {
    ActionResult(false, false, false, false, false, false, false, false, false, false, "", "", "", message)
  }

  /** What the engine calls into: the AEAD key and hash, the PIN hash, the password
      lists and the generator. Any functions will do. */
  datatype Env = Env(
    key: Key,
    hash: seq<byte> -> Tag,
    hash16: string -> seq<byte>,
    common: string -> bool,
    reused: string -> bool,
    generate: string -> string)
  {
    function Evaluate(password: string): Policy {
      Policy(|password| < PASSWORD_MIN_LENGTH, common(password), reused(password))
    }

    /** `load_record_plaintext` */
    function Load(c: Credential): Option<Record> {
      var password := DecryptPassword(key, hash, c.ciphertext, RECORD_PASSWORD_SIZE);
      if password.None? then None
      else
        Some(Record(Clip(c.origin, RECORD_ORIGIN_SIZE), Clip(c.username, RECORD_USERNAME_SIZE), password.value, true))
    }

    /** `stash_record` and the id that follows it */
    function Stash(origin: string, username: string, password: string, aad: Aad, epoch: uint32, id: uint32)
      : Option<Credential>
    {
      var ciphertext := EncryptPassword(key, hash, aad, password, CIPHERTEXT_SIZE);
      if ciphertext.None? then None
      else Some(Credential(true, id, Clip(origin, ENTRY_ORIGIN_SIZE), Clip(username, ENTRY_USERNAME_SIZE),
                           ciphertext.value, epoch, epoch))
    }
  }

  datatype Engine = Engine(
    vault: seq<Credential>,
    machine: Machine,
    pending: Pending,
    lastSelected: Option<Credential>,
    armed: bool,
    lastNonce: uint32,
    clock: uint32,
    limiter: seq<Entry>,
    pinVerifier: Option<seq<byte>>)
  {
    function WithState(s: State): Engine { this.(machine := machine.(ctx := machine.ctx.(state := s))) }

    function Cleared(): Engine { this.(pending := NO_PENDING) }

    function Ticked(): Engine { this.(clock := Wrap32(clock + 1)) }

    // ---- requests -------------------------------------------------------------

    /** The gates in front of every command: replay, wipe, rate, lock, validation. */
    function Gate(cmd: Command): (Engine, Option<Message>) {
      if cmd.nonce != 0 && cmd.nonce <= lastNonce then (this, Some(ReplayBlocked))
      else
        var e := if cmd.nonce != 0 then this.(lastNonce := cmd.nonce) else this;
        if machine.ctx.wiped then (e, Some(DeviceWiped))
        else
          var o := Allow(limiter, if cmd.origin != "" then cmd.origin else "global", clock,
                         COMMAND_WINDOW, COMMANDS_PER_WINDOW);
          var e := e.(limiter := o.entries).Ticked();
          if !o.allowed then (e, Some(RateLimited(o.retryAfter)))
          else if !machine.ctx.unlocked || machine.ctx.state.LockedOut? then
            (e, Some(DeviceLocked(machine.ctx.lockoutTicks)))
          else if !Validated(cmd) then (e, Some(Rejected(Check(cmd))))
          else (e, None)
    }

    function RequestFill(env: Env, cmd: Command): (Engine, ActionResult) {
      var entry := FindByOrigin(vault, cmd.origin);
      if entry.None? then (this, Say(NoCredentialForOrigin))
      else
        var rec := env.Load(entry.value);
        if rec.None? then (this, Say(DecryptFailed))
        else if !machine.FillAccepted(rec.value, cmd.origin) then (this, Say(FillBlocked))
        else
          (this.(machine := machine.AfterRequestFill(rec.value, cmd.origin),
                 pending := Pending(PendingFill, entry.value, cmd, false, 0), armed := false),
           Say(TouchToConfirmFill).(allowed := true, touchRequired := machine.settings.manualPopupTouch,
                                    savePromptRecommended := machine.settings.autoPopup))
    }

    function RequestSave(env: Env, cmd: Command, aad: Aad): (Engine, ActionResult) {
      var password := Clip(cmd.password, RECORD_PASSWORD_SIZE);
      var policy, e := env.Evaluate(password), Ticked();
      var out := Say(PasswordTooShort).(commonWarning := policy.common, reusedWarning := policy.reused);
      if policy.tooShort then (e, out)
      else
        var entry := env.Stash(cmd.origin, cmd.username, password, aad, clock, NextId(vault));
        if entry.None? then (e, out.(message := PrepareSaveFailed))
        else
          var override := policy.common || policy.reused;
          (e.(pending := Pending(PendingSave, entry.value, cmd, override, 0), armed := false),
           out.(allowed := true, touchRequired := true, savePromptRecommended := machine.settings.autoPopup,
                message := if override then HoldToOverride else TouchToSave))
    }

    function RequestGenerate(env: Env, cmd: Command, aad: Aad): (Engine, ActionResult) {
      var password := Clip(env.generate(cmd.origin), RECORD_PASSWORD_SIZE);
      if |password| < PASSWORD_MIN_LENGTH then (this, Say(GenerationFailed))
      else
        var entry := env.Stash(cmd.origin, cmd.username, password, aad, clock, NextId(vault));
        if entry.None? then (Ticked(), Say(PrepareGeneratedFailed))
        else
          (Ticked().(pending := Pending(PendingGenerate, entry.value, cmd, false, 0), armed := false),
           Say(TouchToSaveGenerated).(allowed := true, touchRequired := true, generatedPassword := true,
                                      savePromptRecommended := machine.settings.autoPopup,
                                      generatedValue := password))
    }

    /** Only the kind and the index of the pending request are set. */
    function RequestSelect(): (Engine, ActionResult) {
      if vault == [] then (this, Say(NoCredentials))
      else
        (this.(pending := pending.(kind := PendingSelect, index := Wrap32(machine.ctx.selected + 1) % |vault|))
             .WithState(SelectCredential),
         Say(HoldToConfirmSelection).(allowed := true, touchRequired := true, selectedNext := true))
    }

    function HandleCommand(env: Env, cmd: Command, aad: Aad): (Engine, ActionResult) {
      var (e, refusal) := Gate(cmd);
      if refusal.Some? then (e, Say(refusal.value))
      else match cmd.kind
        case RequestFill => e.RequestFill(env, cmd)
        case RequestSave => e.RequestSave(env, cmd, aad)
        case RequestGenerate => e.RequestGenerate(env, cmd, aad)
        case RequestSelectNext => e.RequestSelect()
        case NoCommand => (e, Say(UnsupportedCommand))
    }

    // ---- confirmations ----------------------------------------------------------

    /** Types the pending credential, or reports that it cannot be decrypted; either
        way the request is over. */
    function TypePending(env: Env): (Engine, ActionResult) {
      var rec := env.Load(pending.credential);
      if rec.None? then (Cleared(), Say(DecryptFailed))
      else
        (Cleared().WithState(Unlocked),
         Say(TypedCredential).(allowed := true, performed := true,
                               typedUsername := Clip(rec.value.username, USERNAME_SIZE),
                               typedPassword := Clip(rec.value.password, PASSWORD_SIZE)))
    }

    function Commit(env: Env): (Engine, ActionResult) {
      if DecryptPassword(env.key, env.hash, pending.credential.ciphertext, RECORD_PASSWORD_SIZE).None? then
        (this, Say(DecryptPendingFailed))
      else if !UpsertSucceeds(vault, pending.credential) then (this, Say(VaultSaveFailed))
      else
        var existed := Exists(vault, pending.credential.origin, pending.credential.username);
        (this.(vault := Upserted(vault, pending.credential)).Cleared().WithState(Unlocked),
         Say(CredentialSaved).(allowed := true, performed := true, updatedExisting := existed, createdNew := !existed))
    }

    function SelectPending(): (Engine, ActionResult) {
      if pending.index >= |vault| || !vault[pending.index].valid then (Cleared(), Say(SelectionFailed))
      else
        (this.(lastSelected := Some(vault[pending.index]),
               machine := machine.(ctx := machine.ctx.(selected := Wrap32(pending.index))))
             .Cleared().WithState(Unlocked),
         Say(CredentialSelected).(allowed := true, performed := true, selectedNext := true))
    }

    function ConfirmTap(env: Env): (Engine, ActionResult) {
      if pending.kind.NoAction? then (this, Say(NoPendingAction))
      else
        var e := this.(machine := machine.AfterTap());
        match pending.kind
        case PendingFill =>
          if e.machine.ctx.state.ConfirmType? then
            (e, Say(TapAgainToType).(allowed := true, touchRequired := true))
          else if e.machine.ctx.state.Unlocked? then e.TypePending(env)
          else (e.Cleared(), Say(InvalidTransition))
        case PendingSelect =>
          (e, Say(HoldToConfirmSelection).(allowed := true, touchRequired := true, selectedNext := true))
        case _ =>
          (e, Say(HoldRequiredToSave).(allowed := true, touchRequired := true))
    }

    function ConfirmHold(env: Env): (Engine, ActionResult) {
      if pending.kind.NoAction? then (this, Say(NoPendingAction))
      else
        var e := this.(machine := machine.AfterHold());
        match pending.kind
        case PendingFill =>
          var manual := !machine.settings.autoPopup && machine.settings.manualPopupTouch;
          if manual && !armed then (e, Say(PressManualButton).(touchRequired := true))
          else (if manual then e.(armed := false) else e).TypePending(env)
        case PendingSelect => e.SelectPending()
        case _ => e.Commit(env)
    }

    // ---- the one-call device API --------------------------------------------------

    /** A command and, if it is allowed, the hold that confirms it. */
    function DeviceCall(env: Env, cmd: Command, aad: Aad): (Engine, ActionResult) {
      var (e, out) := HandleCommand(env, cmd, aad);
      if out.allowed then e.ConfirmHold(env) else (e, out)
    }

    function DeviceSave(env: Env, origin: string, username: string, password: string, aad: Aad)
      : (Engine, ActionResult)
    {
      DeviceCall(env, SaveCommand(origin, username, password), aad)
    }

    function DeviceFill(env: Env, origin: string, aad: Aad): (Engine, ActionResult) {
      DeviceCall(env, FillCommand(origin), aad)
    }

    function DeviceGenerate(env: Env, origin: string, username: string, aad: Aad): (Engine, ActionResult) {
      DeviceCall(env, GenerateCommand(origin, username), aad)
    }

    function DeviceSelect(env: Env, aad: Aad): (Engine, ActionResult) {
      DeviceCall(env, EMPTY_COMMAND.(kind := CommandType.RequestSelectNext), aad)
    }

    function PopupOpen(): (Engine, ActionResult) {
      (this.(machine := machine.AfterApplySettings(Ungated(machine.settings))),
       Say(SettingsPopupOpen).(allowed := true, performed := true))
    }

    function DeviceApplySettings(s: Settings): (Engine, ActionResult) {
      if !machine.SensitiveReady() then (this, Say(DeviceLocked(0)))
      else
        (this.(machine := machine.AfterApplySettings(Ungated(s))),
         Say(SettingsUpdated).(allowed := true, performed := true))
    }

    function ButtonPress(env: Env, origin: string, aad: Aad): (Engine, ActionResult) {
      if origin == "" || FindByOrigin(vault, origin).None? then PopupOpen() else DeviceFill(env, origin, aad)
    }

    function ChangePin(env: Env, oldPin: string, newPin: string): Engine {
      if machine.PinChangeAccepted(oldPin, newPin, env.hash16) then
        this.(machine := machine.AfterSetPin(oldPin, newPin, env.hash16), pinVerifier := Some(env.hash16(newPin)))
      else this
    }
  }

  function SaveCommand(origin: string, username: string, password: string): Command {
    Command(CommandType.RequestSave, 0, Clip(origin, ORIGIN_SIZE), Clip(username, USERNAME_SIZE),
            Clip(password, PASSWORD_SIZE))
  }

  function FillCommand(origin: string): Command {
    Command(CommandType.RequestFill, 0, Clip(origin, ORIGIN_SIZE), "", "")
  }

  function GenerateCommand(origin: string, username: string): Command {
    Command(CommandType.RequestGenerate, 0, Clip(origin, ORIGIN_SIZE), Clip(username, USERNAME_SIZE), "")
  }

  /** The interaction gates that the one-button model switches off. */
  function Ungated(s: Settings): Settings {
    s.(autoPopup := true, manualPopupTouch := false, touchForFill := false, holdForSelection := false)
  }

  class ActionEngine {
    const vault: Vault
    const device: Device
    const limiter: RateLimiter
    var pending: Pending
    var lastSelected: Option<Credential>
    var armed: bool
    var lastNonce: uint32
    var clock: uint32
    var pinVerifier: Option<seq<byte>>

    ghost predicate Valid()
      reads this, vault, limiter
    {
      vault.Valid() && limiter.Valid() && vault.credentials as object != limiter.entries
    }

    function View(): Engine
      requires Valid()
      reads this, vault, vault.credentials, device, limiter, limiter.entries
    {
      Engine(vault.Contents(), device.View(), pending, lastSelected, armed, lastNonce, clock,
             limiter.entries[..], pinVerifier)
    }

    /** `action_engine_init`: limiter, nonce and pending request start over, the clock
        runs on, and the PIN verifier is the one on record or, failing that, the
        default PIN's. */
    constructor (vault: Vault, device: Device, limiter: RateLimiter, env: Env, onRecord: Option<seq<byte>>,
                 clock: uint32)
      requires vault.Valid() && limiter.Valid() && vault.credentials as object != limiter.entries
      modifies device, limiter.entries
      ensures Valid() && this.vault == vault && this.device == device && this.limiter == limiter
      ensures var v := Some(if onRecord.Some? then onRecord.value else env.hash16("12345"));
        View() == Engine(vault.Contents(), old(device.View()).(verifier := v), NO_PENDING, None, false, 0, clock,
                         INITIAL, v)
    {
      this.vault, this.device, this.limiter := vault, device, limiter;
      pending, lastSelected, armed, lastNonce, this.clock := NO_PENDING, None, false, 0, clock;
      pinVerifier := Some(if onRecord.Some? then onRecord.value else env.hash16("12345"));
      new;
      limiter.Init();
      device.SetPinVerifier(pinVerifier);
    }

    method PassGate(cmd: Command) returns (refusal: Option<Message>)
      requires Valid()
      modifies this, limiter.entries
      ensures Valid() && (View(), refusal) == old(View()).Gate(cmd)
    {
      if cmd.nonce != 0 {
        if cmd.nonce <= lastNonce {
          return Some(ReplayBlocked);
        }
        lastNonce := cmd.nonce;
      }
      if device.wiped {
        return Some(DeviceWiped);
      }
      var now := clock;
      clock := Wrap32(clock + 1);
      var allowed, retryAfter := limiter.TryAllow(if cmd.origin != "" then cmd.origin else "global", now,
                                                  COMMAND_WINDOW, COMMANDS_PER_WINDOW);
      if !allowed {
        return Some(RateLimited(retryAfter));
      }
      if !device.unlocked || device.state == LockedOut {
        return Some(DeviceLocked(device.lockoutTicks));
      }
      if !Validated(cmd) {
        return Some(Rejected(Check(cmd)));
      }
      return None;
    }

    method HandleFill(env: Env, cmd: Command) returns (out: ActionResult)
      requires Valid()
      modifies this, device
      ensures Valid() && (View(), out) == old(View()).RequestFill(env, cmd)
    {
      var settings := device.settings;
      var entry := vault.FindEntryByOrigin(cmd.origin);
      if entry.None? {
        return Say(NoCredentialForOrigin);
      }
      var rec := env.Load(entry.value);
      if rec.None? {
        return Say(DecryptFailed);
      }
      var accepted := device.RequestFillFor(rec.value, cmd.origin);
      if !accepted {
        return Say(FillBlocked);
      }
      pending := Pending(PendingFill, entry.value, cmd, false, 0);
      armed := false;
      return Say(TouchToConfirmFill).(allowed := true, touchRequired := settings.manualPopupTouch,
                                      savePromptRecommended := settings.autoPopup);
    }

    method HandleSave(env: Env, cmd: Command, aad: Aad) returns (out: ActionResult)
      requires Valid()
      modifies this
      ensures Valid() && (View(), out) == old(View()).RequestSave(env, cmd, aad)
    {
      var password, epoch := Clip(cmd.password, RECORD_PASSWORD_SIZE), clock;
      clock := Wrap32(clock + 1);
      var policy := env.Evaluate(password);
      out := Say(PasswordTooShort).(commonWarning := policy.common, reusedWarning := policy.reused);
      if policy.tooShort {
        return;
      }
      var id := vault.FreshId();
      var entry := env.Stash(cmd.origin, cmd.username, password, aad, epoch, id);
      if entry.None? {
        return out.(message := PrepareSaveFailed);
      }
      pending := Pending(PendingSave, entry.value, cmd, policy.common || policy.reused, 0);
      armed := false;
      out := out.(allowed := true, touchRequired := true, savePromptRecommended := device.settings.autoPopup,
                  message := if pending.overrideWithHold then HoldToOverride else TouchToSave);
    }

    method HandleGenerate(env: Env, cmd: Command, aad: Aad) returns (out: ActionResult)
      requires Valid()
      modifies this
      ensures Valid() && (View(), out) == old(View()).RequestGenerate(env, cmd, aad)
    {
      var password := Clip(env.generate(cmd.origin), RECORD_PASSWORD_SIZE);
      if |password| < PASSWORD_MIN_LENGTH {
        return Say(GenerationFailed);
      }
      var epoch := clock;
      clock := Wrap32(clock + 1);
      var id := vault.FreshId();
      var entry := env.Stash(cmd.origin, cmd.username, password, aad, epoch, id);
      if entry.None? {
        return Say(PrepareGeneratedFailed);
      }
      pending := Pending(PendingGenerate, entry.value, cmd, false, 0);
      armed := false;
      return Say(TouchToSaveGenerated).(allowed := true, touchRequired := true, generatedPassword := true,
                                        savePromptRecommended := device.settings.autoPopup,
                                        generatedValue := password);
    }

    method HandleSelect() returns (out: ActionResult)
      requires Valid()
      modifies this, device
      ensures Valid() && (View(), out) == old(View()).RequestSelect()
    {
      if vault.count == 0 {
        return Say(NoCredentials);
      }
      pending := pending.(kind := PendingSelect, index := Wrap32(device.selected + 1) % vault.count);
      device.state := SelectCredential;
      return Say(HoldToConfirmSelection).(allowed := true, touchRequired := true, selectedNext := true);
    }

    method Handle(env: Env, cmd: Command, aad: Aad) returns (out: ActionResult)
      requires Valid()
      modifies this, device, limiter.entries
      ensures Valid() && (View(), out) == old(View()).HandleCommand(env, cmd, aad)
    {
      var refusal := PassGate(cmd);
      if refusal.Some? {
        return Say(refusal.value);
      }
      match cmd.kind {
        case RequestFill => out := HandleFill(env, cmd);
        case RequestSave => out := HandleSave(env, cmd, aad);
        case RequestGenerate => out := HandleGenerate(env, cmd, aad);
        case RequestSelectNext => out := HandleSelect();
        case NoCommand => out := Say(UnsupportedCommand);
      }
    }

    method TypeOut(env: Env) returns (out: ActionResult)
      requires Valid()
      modifies this, device
      ensures Valid() && (View(), out) == old(View()).TypePending(env)
    {
      var rec := env.Load(pending.credential);
      pending := NO_PENDING;
      if rec.None? {
        return Say(DecryptFailed);
      }
      device.state := Unlocked;
      return Say(TypedCredential).(allowed := true, performed := true,
                                   typedUsername := Clip(rec.value.username, USERNAME_SIZE),
                                   typedPassword := Clip(rec.value.password, PASSWORD_SIZE));
    }

    method CommitPending(env: Env) returns (out: ActionResult)
      requires Valid()
      modifies this, device, vault, vault.credentials
      ensures Valid() && (View(), out) == old(View()).Commit(env)
    {
      if DecryptPassword(env.key, env.hash, pending.credential.ciphertext, RECORD_PASSWORD_SIZE).None? {
        return Say(DecryptPendingFailed);
      }
      var existed := vault.HasEntry(pending.credential.origin, pending.credential.username);
      var saved := vault.Upsert(pending.credential);
      if !saved {
        return Say(VaultSaveFailed);
      }
      device.state := Unlocked;
      pending := NO_PENDING;
      return Say(CredentialSaved).(allowed := true, performed := true,
                                   updatedExisting := existed, createdNew := !existed);
    }

    method ConfirmSelection() returns (out: ActionResult)
      requires Valid()
      modifies this, device
      ensures Valid() && (View(), out) == old(View()).SelectPending()
    {
      var entry := vault.GetByIndex(pending.index);
      if entry.None? {
        pending := NO_PENDING;
        return Say(SelectionFailed);
      }
      lastSelected := entry;
      device.selected := Wrap32(pending.index);
      device.state := Unlocked;
      pending := NO_PENDING;
      return Say(CredentialSelected).(allowed := true, performed := true, selectedNext := true);
    }

    method Tap(env: Env) returns (out: ActionResult)
      requires Valid()
      modifies this, device
      ensures Valid() && (View(), out) == old(View()).ConfirmTap(env)
    {
      if pending.kind == NoAction {
        return Say(NoPendingAction);
      }
      device.OnTouchTap();
      if pending.kind == PendingFill {
        if device.state == ConfirmType {
          return Say(TapAgainToType).(allowed := true, touchRequired := true);
        }
        if device.state == Unlocked {
          out := TypeOut(env);
          return;
        }
        pending := NO_PENDING;
        return Say(InvalidTransition);
      } else if pending.kind == PendingSelect {
        return Say(HoldToConfirmSelection).(allowed := true, touchRequired := true, selectedNext := true);
      }
      return Say(HoldRequiredToSave).(allowed := true, touchRequired := true);
    }

    method Hold(env: Env) returns (out: ActionResult)
      requires Valid()
      modifies this, device, vault, vault.credentials
      ensures Valid() && (View(), out) == old(View()).ConfirmHold(env)
    {
      if pending.kind == NoAction {
        return Say(NoPendingAction);
      }
      var settings := device.settings;
      device.OnTouchHold();
      if pending.kind == PendingFill {
        if !settings.autoPopup && settings.manualPopupTouch {
          if !armed {
            return Say(PressManualButton).(touchRequired := true);
          }
          armed := false;
        }
        out := TypeOut(env);
      } else if pending.kind == PendingSelect {
        out := ConfirmSelection();
      } else {
        out := CommitPending(env);
      }
    }

    method CallDevice(env: Env, cmd: Command, aad: Aad) returns (out: ActionResult)
      requires Valid()
      modifies this, device, vault, vault.credentials, limiter.entries
      ensures Valid() && (View(), out) == old(View()).DeviceCall(env, cmd, aad)
    {
      out := Handle(env, cmd, aad);
      if out.allowed {
        out := Hold(env);
      }
    }

    method OpenPopup() returns (out: ActionResult)
      requires Valid()
      modifies device
      ensures Valid() && (View(), out) == old(View()).PopupOpen()
    {
      var settings := Ungated(device.settings);
      device.ApplySettings(settings);
      return Say(SettingsPopupOpen).(allowed := true, performed := true);
    }

    method ApplyDeviceSettings(s: Settings) returns (out: ActionResult)
      requires Valid()
      modifies device
      ensures Valid() && (View(), out) == old(View()).DeviceApplySettings(s)
    {
      if !device.unlocked || device.state == LockedOut || device.wiped {
        return Say(DeviceLocked(0));
      }
      device.ApplySettings(Ungated(s));
      return Say(SettingsUpdated).(allowed := true, performed := true);
    }

    method PressButton(env: Env, origin: string, aad: Aad) returns (out: ActionResult)
      requires Valid()
      modifies this, device, vault, vault.credentials, limiter.entries
      ensures Valid() && (View(), out) == old(View()).ButtonPress(env, origin, aad)
    {
      var known: Option<Credential> := None;
      if origin != "" {
        known := vault.FindEntryByOrigin(origin);
      }
      if known.None? {
        out := OpenPopup();
      } else {
        out := CallDevice(env, FillCommand(origin), aad);
      }
    }

    method TryChangePin(env: Env, oldPin: string, newPin: string) returns (success: bool)
      requires Valid()
      modifies this, device
      ensures Valid() && View() == old(View()).ChangePin(env, oldPin, newPin)
      ensures success == old(View()).machine.PinChangeAccepted(oldPin, newPin, env.hash16)
    {
      success := device.SetPin(oldPin, newPin, env.hash16);
      if success {
        pinVerifier := Some(env.hash16(newPin));
        device.SetPinVerifier(pinVerifier);
      }
    }
  }
}
