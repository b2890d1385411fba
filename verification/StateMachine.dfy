/** state_machine.c: PIN entry, the growing lockout, the optional wipe, autolock
    and the prompt states. `Machine` is the state as a value, with one function
    per entry point; `Device` is the same state updated in place. */
module StateMachine {
  import opened Basics
  import opened CStrings
  import opened BrowserProtocol

  const PIN_DIGITS: nat := 5
  const LOCKOUT_TICKS_BASE: nat := 3
  const LOCKOUT_TICKS_STEP: nat := 2
  const WIPE_THRESHOLD: nat := 10
  const AUTOLOCK_DEFAULT: uint16 := 60
  const RECORD_ORIGIN_SIZE: nat := 128
  const RECORD_USERNAME_SIZE: nat := 96
  const RECORD_PASSWORD_SIZE: nat := 128

  datatype State =
    | Locked
    | Unlocked
    | PromptFill
    | PromptSave
    | SelectCredential
    | EditCredential
    | ConfirmType
    | FidoPrompt
    | LockedOut

  datatype Settings = Settings(
    autoPopup: bool,
    manualPopupTouch: bool,
    touchForFill: bool,
    holdForSelection: bool,
    autolockSeconds: uint16,
    pinAttemptLimit: byte,
    wipeOnLockout: bool)

  const DEFAULT_SETTINGS := Settings(true, true, true, true, AUTOLOCK_DEFAULT, 5, false)

  /** `state_machine_apply_settings`: zero or unknown values fall back to defaults. */
  function Normalized(s: Settings): Settings {
    s.(autolockSeconds := if s.autolockSeconds == 0 then AUTOLOCK_DEFAULT else s.autolockSeconds,
       pinAttemptLimit := if s.pinAttemptLimit in {3, 5, 10} then s.pinAttemptLimit else 5)
  }

  datatype Context = Context(
    state: State,
    unlocked: bool,
    wiped: bool,
    failedAttempts: uint32,
    inactivity: uint32,
    lockoutTicks: uint32,
    selected: uint32)

  const INITIAL_CONTEXT := Context(Locked, false, false, 0, 0, 0, 0)

  /** A decrypted credential, in the buffers of `credential_record_t`. */
  datatype Record = Record(origin: string, username: string, password: string, requiresTouch: bool)

  /** `password_policy_result_t`, without the strength that only feeds a warning. */
  datatype Policy = Policy(tooShort: bool, common: bool, reused: bool)

  predicate WellFormedPin(pin: string) { |pin| == PIN_DIGITS && AllDigits(pin) }

  datatype Machine = Machine(ctx: Context, settings: Settings, verifier: Option<seq<byte>>) {
    function WithReset(): Machine {
      this.(ctx := ctx.(unlocked := false, inactivity := 0,
                        state := if ctx.state.LockedOut? then LockedOut else Locked))
    }

    function AfterTick(): Machine {
      if ctx.state.LockedOut? then
        var left := if ctx.lockoutTicks > 0 then ctx.lockoutTicks - 1 else 0;
        this.(ctx := ctx.(lockoutTicks := left, state := if left == 0 && !ctx.wiped then Locked else LockedOut))
      else if !ctx.unlocked then this
      else
        var idle := this.(ctx := ctx.(inactivity := Wrap32(ctx.inactivity + 1)));
        if idle.ctx.inactivity >= settings.autolockSeconds then idle.WithReset() else idle
    }

    function AfterTap(): Machine {
      var touched := this.(ctx := ctx.(inactivity := 0));
      if !ctx.unlocked then touched
      else match ctx.state
        case PromptFill => touched.(ctx := touched.ctx.(state := ConfirmType))
        case ConfirmType => touched.(ctx := touched.ctx.(state := Unlocked))
        case PromptSave => touched.(ctx := touched.ctx.(state := EditCredential))
        case _ => touched
    }

    function AfterHold(): Machine {
      var touched := this.(ctx := ctx.(inactivity := 0));
      if !ctx.unlocked then touched
      else match ctx.state
        case Unlocked => touched.(ctx := touched.ctx.(state := SelectCredential))
        case PromptFill => touched.(ctx := touched.ctx.(state := ConfirmType))
        case EditCredential => touched.(ctx := touched.ctx.(state := Unlocked))
        case _ => touched
    }

    /** The guard of `try_unlock`: is this guess compared with the verifier at all? */
    predicate GuessTaken() {
      !ctx.wiped && verifier.Some? && !(ctx.state.LockedOut? && ctx.lockoutTicks > 0)
    }

    predicate RightPin(pin: string, hash16: string -> seq<byte>) {
      WellFormedPin(pin) && verifier == Some(hash16(pin))
    }

    predicate Unlocks(pin: string, hash16: string -> seq<byte>) {
      GuessTaken() && RightPin(pin, hash16)
    }

    function AfterTryUnlock(pin: string, hash16: string -> seq<byte>): Machine {
      if !GuessTaken() then this
      else if RightPin(pin, hash16) then
        this.(ctx := ctx.(failedAttempts := 0, lockoutTicks := 0, unlocked := true, state := Unlocked, inactivity := 0))
      else
        var failed := Wrap32(ctx.failedAttempts + 1);
        var m := this.(ctx := ctx.(failedAttempts := failed)).WithReset();
        if settings.wipeOnLockout && failed >= WIPE_THRESHOLD then
          m.(ctx := m.ctx.(wiped := true, state := LockedOut, lockoutTicks := 0))
        else if failed >= settings.pinAttemptLimit then
          var exceeded := failed - settings.pinAttemptLimit;
          m.(ctx := m.ctx.(state := LockedOut,
                           lockoutTicks := Wrap32(LOCKOUT_TICKS_BASE + exceeded * LOCKOUT_TICKS_STEP)))
        else m
    }

    predicate PinChangeAccepted(oldPin: string, newPin: string, hash16: string -> seq<byte>) {
      ctx.unlocked && !ctx.wiped && WellFormedPin(newPin) && RightPin(oldPin, hash16)
    }

    function AfterSetPin(oldPin: string, newPin: string, hash16: string -> seq<byte>): Machine {
      if PinChangeAccepted(oldPin, newPin, hash16) then this.(verifier := Some(hash16(newPin))) else this
    }

    predicate SensitiveReady() { ctx.unlocked && !ctx.wiped && !ctx.state.LockedOut? }

    predicate FillAccepted(rec: Record, origin: string) {
      && SensitiveReady()
      && Validated(Command(RequestFill, 0, Clip(origin, ORIGIN_SIZE),
                           Clip(Clip(rec.username, RECORD_USERNAME_SIZE), USERNAME_SIZE),
                           Clip(Clip(rec.password, RECORD_PASSWORD_SIZE), PASSWORD_SIZE)))
      && StrnEq(Clip(rec.origin, RECORD_ORIGIN_SIZE), origin, RECORD_ORIGIN_SIZE)
    }

    function AfterRequestFill(rec: Record, origin: string): Machine {
      if FillAccepted(rec, origin) then
        this.(ctx := ctx.(inactivity := 0,
                          state := if settings.touchForFill || rec.requiresTouch then PromptFill else ConfirmType))
      else this
    }

    predicate SaveAccepted(rec: Record, policy: Policy) {
      && SensitiveReady()
      && !policy.tooShort && !policy.common && !policy.reused
      && Validated(Command(RequestSave, 0, Clip(Clip(rec.origin, RECORD_ORIGIN_SIZE), ORIGIN_SIZE),
                           Clip(Clip(rec.username, RECORD_USERNAME_SIZE), USERNAME_SIZE),
                           Clip(Clip(rec.password, RECORD_PASSWORD_SIZE), PASSWORD_SIZE)))
    }

    function AfterRequestSave(rec: Record, policy: Policy): Machine {
      if SaveAccepted(rec, policy) then this.(ctx := ctx.(state := PromptSave, inactivity := 0)) else this
    }

    function AfterApplySettings(s: Settings): Machine { this.(settings := Normalized(s)) }

    function AfterInit(): Machine { this.(ctx := INITIAL_CONTEXT) }
  }

  const POWER_ON := Machine(INITIAL_CONTEXT, DEFAULT_SETTINGS, None)

  /** `device_context_t` with the file's globals `g_settings` and `g_pin_verifier`. */
  class Device {
    var state: State
    var unlocked: bool
    var wiped: bool
    var failedAttempts: uint32
    var inactivity: uint32
    var lockoutTicks: uint32
    var selected: uint32
    var settings: Settings
    var verifier: Option<seq<byte>>

    function View(): Machine
      reads this
    {
      Machine(Context(state, unlocked, wiped, failedAttempts, inactivity, lockoutTicks, selected), settings, verifier)
    }

    constructor ()
      ensures View() == POWER_ON
    {
      state, unlocked, wiped := Locked, false, false;
      failedAttempts, inactivity, lockoutTicks, selected := 0, 0, 0, 0;
      settings, verifier := DEFAULT_SETTINGS, None;
    }

    method Init()
      modifies this
      ensures View() == old(View()).AfterInit()
    {
      state, unlocked, wiped := Locked, false, false;
      failedAttempts, inactivity, lockoutTicks, selected := 0, 0, 0, 0;
    }

    method ResetUnlockSession()
      modifies this
      ensures View() == old(View()).WithReset()
    {
      unlocked := false;
      inactivity := 0;
      if state != LockedOut {
        state := Locked;
      }
    }

    method Tick()
      modifies this
      ensures View() == old(View()).AfterTick()
    {
      if state == LockedOut {
        if lockoutTicks > 0 {
          lockoutTicks := lockoutTicks - 1;
        }
        if lockoutTicks == 0 && !wiped {
          state := Locked;
        }
        return;
      }
      if !unlocked {
        return;
      }
      inactivity := Wrap32(inactivity + 1);
      if inactivity >= settings.autolockSeconds {
        ResetUnlockSession();
      }
    }

    method OnTouchTap()
      modifies this
      ensures View() == old(View()).AfterTap()
    {
      inactivity := 0;
      if !unlocked {
        return;
      }
      match state {
        case PromptFill => state := ConfirmType;
        case ConfirmType => state := Unlocked;
        case PromptSave => state := EditCredential;
        case _ =>
      }
    }

    method OnTouchHold()
      modifies this
      ensures View() == old(View()).AfterHold()
    {
      inactivity := 0;
      if !unlocked {
        return;
      }
      match state {
        case Unlocked => state := SelectCredential;
        case PromptFill => state := ConfirmType;
        case EditCredential => state := Unlocked;
        case _ =>
      }
    }

    /** The scan shared by PIN entry and PIN change: it stops at the first
        character that is not a digit. */
    static method ScanPin(pin: string) returns (length: nat, allDigits: bool)
      ensures length == PIN_DIGITS && allDigits <==> WellFormedPin(pin)
      ensures length <= |pin| && (allDigits ==> length == |pin|)
    {
      length, allDigits := 0, true;
      while length < |pin|
        invariant length <= |pin|
        invariant allDigits && AllDigits(pin[..length])
      {
        if !IsDigit(pin[length]) {
          allDigits := false;
          assert !AllDigits(pin) by { assert !IsDigit(pin[length]); }
          return;
        }
        length := length + 1;
      }
      assert pin[..length] == pin;
    }

    method TryUnlock(pin: string, hash16: string -> seq<byte>) returns (success: bool)
      modifies this
      ensures success == old(View()).Unlocks(pin, hash16)
      ensures View() == old(View()).AfterTryUnlock(pin, hash16)
    {
      if wiped || verifier.None? {
        return false;
      }
      if state == LockedOut && lockoutTicks > 0 {
        return false;
      }
      var pinLen, allDigits := ScanPin(pin);
      var candidate := hash16(pin[..pinLen]);
      assert allDigits ==> pin[..pinLen] == pin;
      if pinLen == PIN_DIGITS && allDigits && candidate == verifier.value {
        failedAttempts := 0;
        lockoutTicks := 0;
        unlocked := true;
        state := Unlocked;
        inactivity := 0;
        return true;
      }
      failedAttempts := Wrap32(failedAttempts + 1);
      ResetUnlockSession();
      if settings.wipeOnLockout && failedAttempts >= WIPE_THRESHOLD {
        wiped := true;
        state := LockedOut;
        lockoutTicks := 0;
      } else if failedAttempts >= settings.pinAttemptLimit {
        var exceeded := failedAttempts - settings.pinAttemptLimit;
        state := LockedOut;
        lockoutTicks := Wrap32(LOCKOUT_TICKS_BASE + exceeded * LOCKOUT_TICKS_STEP);
      }
      return false;
    }

    method SetPin(oldPin: string, newPin: string, hash16: string -> seq<byte>) returns (success: bool)
      modifies this
      ensures success == old(View()).PinChangeAccepted(oldPin, newPin, hash16)
      ensures View() == old(View()).AfterSetPin(oldPin, newPin, hash16)
    {
      if !unlocked || wiped {
        return false;
      }
      var oldLen, oldDigits := ScanPin(oldPin);
      var newLen, newDigits := ScanPin(newPin);
      if oldLen != PIN_DIGITS || newLen != PIN_DIGITS || !oldDigits || !newDigits {
        return false;
      }
      if verifier.None? || hash16(oldPin) != verifier.value {
        return false;
      }
      verifier := Some(hash16(newPin));
      return true;
    }

    method RequestFillFor(rec: Record, origin: string) returns (success: bool)
      modifies this
      ensures success == old(View()).FillAccepted(rec, origin)
      ensures View() == old(View()).AfterRequestFill(rec, origin)
    {
      if !unlocked || wiped || state == LockedOut {
        return false;
      }
      var usernameCopy := Clip(rec.username, RECORD_USERNAME_SIZE);
      var passwordCopy := Clip(rec.password, RECORD_PASSWORD_SIZE);
      var originCopy := Clip(rec.origin, RECORD_ORIGIN_SIZE);
      var cmd := Command(RequestFill, 0, Clip(origin, ORIGIN_SIZE), Clip(usernameCopy, USERNAME_SIZE),
                         Clip(passwordCopy, PASSWORD_SIZE));
      if !Validated(cmd) || !StrnEq(originCopy, origin, RECORD_ORIGIN_SIZE) {
        return false;
      }
      inactivity := 0;
      state := if settings.touchForFill || rec.requiresTouch then PromptFill else ConfirmType;
      return true;
    }

    method RequestSaveOf(rec: Record, policy: Policy) returns (success: bool)
      modifies this
      ensures success == old(View()).SaveAccepted(rec, policy)
      ensures View() == old(View()).AfterRequestSave(rec, policy)
    {
      if !unlocked || wiped || state == LockedOut {
        return false;
      }
      var usernameCopy := Clip(rec.username, RECORD_USERNAME_SIZE);
      var passwordCopy := Clip(rec.password, RECORD_PASSWORD_SIZE);
      var originCopy := Clip(rec.origin, RECORD_ORIGIN_SIZE);
      if policy.tooShort || policy.common || policy.reused {
        return false;
      }
      var cmd := Command(RequestSave, 0, Clip(originCopy, ORIGIN_SIZE), Clip(usernameCopy, USERNAME_SIZE),
                         Clip(passwordCopy, PASSWORD_SIZE));
      if !Validated(cmd) {
        return false;
      }
      state := PromptSave;
      inactivity := 0;
      return true;
    }

    method ApplySettings(s: Settings)
      modifies this
      ensures View() == old(View()).AfterApplySettings(s)
    {
      settings := s;
      if settings.autolockSeconds == 0 {
        settings := settings.(autolockSeconds := AUTOLOCK_DEFAULT);
      }
      if settings.pinAttemptLimit == 0 {
        settings := settings.(pinAttemptLimit := 5);
      }
      if settings.pinAttemptLimit != 3 && settings.pinAttemptLimit != 5 && settings.pinAttemptLimit != 10 {
        settings := settings.(pinAttemptLimit := 5);
      }
    }

    method SetPinVerifier(v: Option<seq<byte>>)
      modifies this
      ensures View() == old(View()).(verifier := v)
    {
      verifier := v;
    }

    method Lock()
      modifies this
      ensures View() == old(View()).WithReset()
    {
      ResetUnlockSession();
    }
  }
}
