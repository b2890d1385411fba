/** A saved password comes back: when a later fill is performed, and what it types. */
module FillLaws {
  import opened Basics
  import opened CStrings
  import opened BrowserProtocol
  import opened StateMachine
  import opened Vaults
  import opened VaultLaws
  import opened Envelope
  import opened ActionEngine
  import opened EngineLaws
  import opened EngineRateLaws
  import opened GateLaws
  import LockoutLaws

  /** The event asks for no save under the key. */
  predicate Avoids(ev: Event, key: (string, string)) {
    match ev
    case CommandIn(cmd, _) => cmd.kind in {RequestSave, RequestGenerate} ==> SavedKey(cmd) != key
    case DeviceSave(origin, username, password, _) => SavedKey(SaveCommand(origin, username, password)) != key
    case DeviceGenerate(origin, username, _) => SavedKey(GenerateCommand(origin, username)) != key
    case _ => true
  }

  /** The credential is what a fill for the origin finds, and no pending save is under its key. */
  ghost predicate Kept(e: Engine, origin: string, c: Credential) {
    && Keyed(e.vault) && FindByOrigin(e.vault, origin) == Some(c)
    && (IsSave(e.pending) ==> Storable(e.pending.credential) && KeyOf(e.pending.credential) != KeyOf(c))
  }

  lemma UpsertKeepsFirst(cs: seq<Credential>, r: Credential, origin: string, c: Credential)
    requires Keyed(cs) && Storable(r) && KeyOf(r) != KeyOf(c) && FindByOrigin(cs, origin) == Some(c)
    ensures FindByOrigin(Upserted(cs, r), origin) == Some(c)
  {
    var k := FirstForOrigin(cs, origin, 0);
    var cs' := Upserted(cs, r);
    if UpsertSucceeds(cs, r) {
      var j := FirstForKey(cs, r.origin, r.username, 0);
      assert j < |cs| ==> KeyOf(cs[j]) == KeyOf(r);
      assert cs'[k] == c && HasOrigin(c, origin);
      assert forall i :: 0 <= i < k ==> HasOrigin(cs'[i], origin) == HasOrigin(cs[i], origin);
    }
  }

  lemma KeptByHandle(env: Env, e: Engine, e': Engine, cmd: Command, aad: Aad, origin: string, c: Credential)
    requires Kept(e, origin, c) && Requested(env, e, e', cmd, aad)
    requires cmd.kind in {RequestSave, RequestGenerate} ==> SavedKey(cmd) != KeyOf(c)
    ensures Kept(e', origin, c)
  {
  }

  lemma KeptByHold(e: Engine, e': Engine, out: ActionResult, origin: string, c: Credential)
    requires Kept(e, origin, c) && Held(e, e', out)
    ensures Kept(e', origin, c)
  {
    if e'.vault != e.vault {
      UpsertKeepsKeyed(e.vault, e.pending.credential);
      UpsertKeepsFirst(e.vault, e.pending.credential, origin, c);
    }
  }

  lemma KeptByStep(env: Env, e: Engine, ev: Event, origin: string, c: Credential)
    requires Kept(e, origin, c) && Avoids(ev, KeyOf(c))
    ensures Kept(Step(env, e, ev).0, origin, c)
  {
    if CommandOf(e, ev).Some? {
      var cmd := CommandOf(e, ev).value;
      var (mid, out) := e.HandleCommand(env, cmd, ev.aad);
      HandleAnswers(env, e, cmd, ev.aad);
      KeptByHandle(env, e, mid, cmd, ev.aad, origin, c);
      HoldHolds(env, mid);
      KeptByHold(mid, mid.ConfirmHold(env).0, mid.ConfirmHold(env).1, origin, c);
    } else if ev.Hold? {
      HoldHolds(env, e);
      KeptByHold(e, e.ConfirmHold(env).0, e.ConfirmHold(env).1, origin, c);
    } else if ev.Tap? {
      TapLeavesVault(env, e);
    }
  }

  lemma {:induction false} KeptByRun(env: Env, e: Engine, events: seq<Event>, origin: string, c: Credential)
    requires Kept(e, origin, c)
    requires forall i :: 0 <= i < |events| ==> Avoids(events[i], KeyOf(c))
    ensures Kept(Run(env, e, events), origin, c)
    decreases |events|
  {
    if events != [] {
      KeptByRun(env, e, events[..|events| - 1], origin, c);
      KeptByStep(env, Run(env, e, events[..|events| - 1]), events[|events| - 1], origin, c);
    }
  }

  /** A performed save or generate stores a credential under its key that holds the
      password it was about. */
  lemma CallStores(env: Env, e: Engine, cmd: Command, aad: Aad) returns (c: Credential)
    requires Keyed(e.vault) && cmd.kind in {RequestSave, RequestGenerate}
    requires e.DeviceCall(env, cmd, aad).1.performed
    ensures var e' := e.DeviceCall(env, cmd, aad).0;
      && Keyed(e'.vault) && e'.pending == NO_PENDING
      && Storable(c) && KeyOf(c) == SavedKey(cmd) && Lookup(e'.vault, KeyOf(c)) == Some(c)
      && Sealed(env, c, PasswordFor(env, cmd), aad) && 8 <= |PasswordFor(env, cmd)| <= 48
    ensures Validated(cmd)
  {
    var (mid, out) := e.HandleCommand(env, cmd, aad);
    HandleAnswers(env, e, cmd, aad);
    GateIff(e, cmd);
    HoldHolds(env, mid);
    StoredIsValid(env, e, cmd, aad);
    c := mid.pending.credential;
    UpsertKeepsKeyed(e.vault, c);
    UpsertIsMapUpdate(e.vault, c, KeyOf(c));
  }

  /** A performed fill types what the first credential of the origin decrypts to. */
  lemma FillTypesFirst(env: Env, e: Engine, origin: string, aad: Aad)
    requires e.DeviceFill(env, origin, aad).1.performed
    ensures var c := FindByOrigin(e.vault, Clip(origin, ORIGIN_SIZE));
      c.Some? && TypesOut(env, c.value, e.DeviceFill(env, origin, aad).1)
  {
    var cmd := FillCommand(origin);
    HandleAnswers(env, e, cmd, aad);
    HoldTypesPending(env, e.HandleCommand(env, cmd, aad).0);
  }

  lemma SealedComesBack(env: Env, c: Credential, password: string, aad: Aad, out: ActionResult)
    requires CText(password) && Sealed(env, c, password, aad) && Storable(c) && TypesOut(env, c, out)
    ensures out.typedPassword == password && out.typedUsername == c.username
  {
    RoundTrip(env.key, env.hash, aad, password, CIPHERTEXT_SIZE, RECORD_PASSWORD_SIZE);
  }

  lemma FirstIsStored(cs: seq<Credential>, c: Credential)
    requires Keyed(cs) && Storable(c) && Lookup(cs, KeyOf(c)) == Some(c)
    requires FindByOrigin(cs, c.origin).Some? && FindByOrigin(cs, c.origin).value.username == c.username
    ensures FindByOrigin(cs, c.origin) == Some(c)
  {
    LookupFinds(cs, FirstForOrigin(cs, c.origin, 0));
  }

  // ---- what can be filled ---------------------------------------------------------------

  lemma PartExtends(s: string, p: string, part: string)
    requires p <= s && Contains(p, part)
    ensures Contains(s, part)
  {
    var i: nat :| i <= |p| && HasAt(p, part, i);
    assert p[i..i + |part|] == s[i..i + |part|];
    assert HasAt(s, part, i);
  }

  lemma UrlLikeExtends(s: string, p: string)
    requires p <= s && UrlLike(p)
    ensures UrlLike(s)
  {
    if Contains(p, "://") {
      PartExtends(s, p, "://");
    } else if Contains(p, "javascript:") {
      PartExtends(s, p, "javascript:");
    }
  }

  /** A text that a fill may type: printable, and nothing like an address. */
  predicate Typable(s: string) { SafeText(s) && !UrlLike(s) }

  /** What passed validation for a save or a generate passes it for a fill with the
      username as the vault stores it, exactly if the password may be typed. */
  lemma StoredIsValidFill(cmd: Command, password: string)
    requires cmd.kind in {RequestSave, RequestGenerate} && Validated(cmd) && |password| < PASSWORD_SIZE
    ensures Validated(Command(RequestFill, 0, SavedKey(cmd).0, SavedKey(cmd).1, password)) <==> Typable(password)
  {
    var short := Clip(cmd.username, ENTRY_USERNAME_SIZE);
    if UrlLike(short) {
      UrlLikeExtends(cmd.username, short);
    }
  }

  lemma SealedLoads(env: Env, c: Credential, password: string, aad: Aad)
    requires CText(password) && Sealed(env, c, password, aad) && Storable(c)
    ensures env.Load(c) == Some(Record(c.origin, c.username, password, true)) && |password| <= 48
  {
    RoundTrip(env.key, env.hash, aad, password, CIPHERTEXT_SIZE, RECORD_PASSWORD_SIZE);
  }

  lemma StoredIsFillableIff(env: Env, c: Credential, cmd: Command, aad: Aad)
    requires cmd.kind in {RequestSave, RequestGenerate} && Validated(cmd) && CText(PasswordFor(env, cmd))
    requires Storable(c) && KeyOf(c) == SavedKey(cmd) && Sealed(env, c, PasswordFor(env, cmd), aad)
    ensures Fillable(env, c) <==> Typable(PasswordFor(env, cmd))
  {
    SealedLoads(env, c, PasswordFor(env, cmd), aad);
    StoredIsValidFill(cmd, PasswordFor(env, cmd));
  }

  // ---- the whole way ---------------------------------------------------------------------

  lemma StoredIsFilled(env: Env, e: Engine, c: Credential, password: string, aad: Aad, fillAad: Aad)
    requires CText(password) && Sealed(env, c, password, aad) && Storable(c)
    requires Keyed(e.vault) && FindByOrigin(e.vault, c.origin) == Some(c)
    ensures var out := e.DeviceFill(env, c.origin, fillAad).1;
      && (out.performed <==> FillAdmitted(e, c.origin) && Fillable(env, c))
      && (out.performed ==> out.typedPassword == password && out.typedUsername == c.username)
  {
    FillPerformsIff(env, e, c, fillAad);
    if e.DeviceFill(env, c.origin, fillAad).1.performed {
      FillTypesFirst(env, e, c.origin, fillAad);
      SealedComesBack(env, c, password, aad, e.DeviceFill(env, c.origin, fillAad).1);
    }
  }

  /** What comes back of a save or generate command `cmd` when its origin is filled in a
      state `e`: exactly its password, and its username as the vault stores it. */
  ghost predicate ComesBack(env: Env, e: Engine, cmd: Command, out: ActionResult) {
    && (out.performed <==> FillAdmitted(e, cmd.origin) && Typable(PasswordFor(env, cmd)))
    && (out.performed ==>
          && out.typedPassword == PasswordFor(env, cmd)
          && out.typedUsername == Clip(cmd.username, ENTRY_USERNAME_SIZE))
  }

  /** The command's key holds the first credential of its origin. */
  ghost predicate First(cs: seq<Credential>, cmd: Command) {
    var first := FindByOrigin(cs, SavedKey(cmd).0);
    first.Some? && first.value.username == SavedKey(cmd).1
  }

  lemma StoredThenFill(env: Env, e: Engine, cmd: Command, aad: Aad, between: seq<Event>, fillAad: Aad)
    requires Keyed(e.vault) && cmd.kind in {RequestSave, RequestGenerate} && CText(PasswordFor(env, cmd))
    requires var (stored, out) := e.DeviceCall(env, cmd, aad); out.performed && First(stored.vault, cmd)
    requires forall i :: 0 <= i < |between| ==> Avoids(between[i], SavedKey(cmd))
    ensures var e' := Run(env, e.DeviceCall(env, cmd, aad).0, between);
      ComesBack(env, e', cmd, e'.DeviceFill(env, cmd.origin, fillAad).1)
    ensures 8 <= |PasswordFor(env, cmd)| <= 48
  {
    var stored := e.DeviceCall(env, cmd, aad).0;
    var c := CallStores(env, e, cmd, aad);
    StoredIsFillableIff(env, c, cmd, aad);
    FirstIsStored(stored.vault, c);
    KeptByRun(env, stored, between, c.origin, c);
    StoredIsFilled(env, Run(env, stored, between), c, PasswordFor(env, cmd), aad, fillAad);
  }

  /** In any state with a keyed vault, as every reachable one is: after a save that was
      performed and any events that save nothing under the same key, if the saved
      username is the earliest stored for the origin, a fill of that origin is performed
      exactly when the limiter admits it, the device is unlocked and the manual-popup
      gate is off. It then types exactly the password that was saved, and the username
      as far as the vault stores it: all of it up to 63 characters. */
  lemma SaveThenFill(env: Env, e: Engine, origin: string, username: string, password: string,
                     aad: Aad, between: seq<Event>, fillAad: Aad)
    requires Keyed(e.vault) && CText(password)
    requires var (saved, out) := e.DeviceSave(env, origin, username, password, aad);
      out.performed && First(saved.vault, SaveCommand(origin, username, password))
    requires forall i :: 0 <= i < |between| ==>
      Avoids(between[i], (Clip(origin, ENTRY_ORIGIN_SIZE), Clip(username, ENTRY_USERNAME_SIZE)))
    ensures var saved := e.DeviceSave(env, origin, username, password, aad).0;
      var e' := Run(env, saved, between);
      var out := e'.DeviceFill(env, origin, fillAad).1;
      && 8 <= |password| <= 48
      && (out.performed <==> FillAdmitted(e', Clip(origin, ORIGIN_SIZE)))
      && (out.performed ==>
            && out.typedPassword == password
            && out.typedUsername == Clip(username, ENTRY_USERNAME_SIZE)
            && (out.typedUsername == username <==> |username| < ENTRY_USERNAME_SIZE))
  {
    var cmd := SaveCommand(origin, username, password);
    SavedKeyOfCall(origin, username, password);
    StoredThenFill(env, e, cmd, aad, between, fillAad);
    SaveIsTypable(env, e, cmd, aad);
    assert FillCommand(origin) == FillCommand(cmd.origin);
  }

  lemma SavedKeyOfCall(origin: string, username: string, password: string)
    ensures SavedKey(SaveCommand(origin, username, password))
         == (Clip(origin, ENTRY_ORIGIN_SIZE), Clip(username, ENTRY_USERNAME_SIZE))
    ensures SavedKey(GenerateCommand(origin, username))
         == (Clip(origin, ENTRY_ORIGIN_SIZE), Clip(username, ENTRY_USERNAME_SIZE))
  {
    assert Clip(Clip(username, USERNAME_SIZE), ENTRY_USERNAME_SIZE) == Clip(username, ENTRY_USERNAME_SIZE);
  }

  lemma ValidSaveIsTypable(cmd: Command)
    requires cmd.kind.RequestSave? && Validated(cmd)
    ensures Typable(cmd.password) && Clip(cmd.password, RECORD_PASSWORD_SIZE) == cmd.password
  {
  }

  lemma SaveIsTypable(env: Env, e: Engine, cmd: Command, aad: Aad)
    requires cmd.kind.RequestSave? && e.DeviceCall(env, cmd, aad).1.performed
    ensures Typable(PasswordFor(env, cmd)) && PasswordFor(env, cmd) == cmd.password
  {
    PerformedPassed(env, e, cmd, aad);
    ValidSaveIsTypable(cmd);
  }

  /** Likewise for a performed generate: a fill of the origin types exactly what the
      generator gave for it, which is also what the command reported, provided it may be
      typed at all. */
  lemma GenerateThenFill(env: Env, e: Engine, origin: string, username: string, aad: Aad,
                         between: seq<Event>, fillAad: Aad)
    requires Keyed(e.vault) && CText(env.generate(Clip(origin, ORIGIN_SIZE)))
    requires var (stored, out) := e.DeviceGenerate(env, origin, username, aad);
      out.performed && First(stored.vault, GenerateCommand(origin, username))
    requires forall i :: 0 <= i < |between| ==>
      Avoids(between[i], (Clip(origin, ENTRY_ORIGIN_SIZE), Clip(username, ENTRY_USERNAME_SIZE)))
    ensures var stored := e.DeviceGenerate(env, origin, username, aad).0;
      var e' := Run(env, stored, between);
      var out := e'.DeviceFill(env, origin, fillAad).1;
      var password := env.generate(Clip(origin, ORIGIN_SIZE));
      && 8 <= |password| <= 48
      && e.HandleCommand(env, GenerateCommand(origin, username), aad).1.generatedValue == password
      && (out.performed <==> FillAdmitted(e', Clip(origin, ORIGIN_SIZE)) && Typable(password))
      && (out.performed ==>
            && out.typedPassword == password && out.typedUsername == Clip(username, ENTRY_USERNAME_SIZE))
  {
    var cmd := GenerateCommand(origin, username);
    SavedKeyOfCall(origin, username, "");
    HandleAnswers(env, e, cmd, aad);
    StoredThenFill(env, e, cmd, aad, between, fillAad);
    assert FillCommand(origin) == FillCommand(cmd.origin);
  }

  // ---- locked in between --------------------------------------------------------------------

  /** The engine takes a guess now, and this is the right one: not wiped, no ticks owed in a
      lockout, five digits that hash to the verifier. */
  ghost predicate OpensWith(env: Env, e: Engine, pin: string) {
    && !e.machine.ctx.wiped && !(e.machine.ctx.state.LockedOut? && e.machine.ctx.lockoutTicks > 0)
    && |pin| == 5 && AllDigits(pin) && e.machine.verifier == Some(env.hash16(pin))
  }

  lemma OpenedIsReady(env: Env, e: Engine, pin: string)
    requires OpensWith(env, e, pin)
    ensures var e' := Step(env, e, UnlockWithPin(pin)).0;
      e'.machine.SensitiveReady() && e' == e.(machine := e'.machine) && e'.machine.settings == e.machine.settings
  {
    LockoutLaws.GuessUnlocksIff(e.machine, pin, env.hash16);
  }

  lemma OpenedAdmitsIff(env: Env, e: Engine, pin: string, origin: string)
    requires OpensWith(env, e, pin)
    ensures FillAdmitted(Step(env, e, UnlockWithPin(pin)).0, origin)
       <==> && Admission(e, origin).allowed
            && (e.machine.settings.autoPopup || !e.machine.settings.manualPopupTouch)
  {
    OpenedIsReady(env, e, pin);
  }

  /** A right PIN opens the device for fills: given to any engine that takes it, a fill of
      a fillable credential is then performed exactly when the limiter admits it and the
      manual-popup gate is off. */
  lemma UnlockThenFill(env: Env, e: Engine, pin: string, c: Credential, aad: Aad)
    requires OpensWith(env, e, pin)
    requires Keyed(e.vault) && FindByOrigin(e.vault, c.origin) == Some(c) && Fillable(env, c)
    ensures var e' := Step(env, e, UnlockWithPin(pin)).0;
      e'.DeviceFill(env, c.origin, aad).1.performed
      <==> && Admission(e, c.origin).allowed
           && (e.machine.settings.autoPopup || !e.machine.settings.manualPopupTouch)
  {
    OpenedIsReady(env, e, pin);
    FillPerformsIff(env, Step(env, e, UnlockWithPin(pin)).0, c, aad);
  }

  lemma KeptThenUnlockFill(env: Env, e: Engine, c: Credential, password: string, aad: Aad, pin: string, fillAad: Aad)
    requires Kept(e, c.origin, c) && OpensWith(env, e, pin)
    requires CText(password) && Sealed(env, c, password, aad) && Storable(c)
    ensures var out := Step(env, e, UnlockWithPin(pin)).0.DeviceFill(env, c.origin, fillAad).1;
      && (out.performed <==>
            && Admission(e, c.origin).allowed && Fillable(env, c)
            && (e.machine.settings.autoPopup || !e.machine.settings.manualPopupTouch))
      && (out.performed ==> out.typedPassword == password)
  {
    OpenedIsReady(env, e, pin);
    OpenedAdmitsIff(env, e, pin, c.origin);
    StoredIsFilled(env, Step(env, e, UnlockWithPin(pin)).0, c, password, aad, fillAad);
  }

  lemma StoredUnlockFill(env: Env, stored: Engine, c: Credential, password: string, aad: Aad,
                         between: seq<Event>, pin: string, fillAad: Aad)
    requires Keyed(stored.vault) && stored.pending == NO_PENDING
    requires Lookup(stored.vault, KeyOf(c)) == Some(c) && Storable(c)
    requires var first := FindByOrigin(stored.vault, c.origin); first.Some? && first.value.username == c.username
    requires CText(password) && Sealed(env, c, password, aad)
    requires forall i :: 0 <= i < |between| ==> Avoids(between[i], KeyOf(c))
    requires OpensWith(env, Run(env, stored, between), pin)
    ensures var e' := Run(env, stored, between);
      var out := Step(env, e', UnlockWithPin(pin)).0.DeviceFill(env, c.origin, fillAad).1;
      && (out.performed <==>
            && Admission(e', c.origin).allowed && Fillable(env, c)
            && (e'.machine.settings.autoPopup || !e'.machine.settings.manualPopupTouch))
      && (out.performed ==> out.typedPassword == password)
  {
    FirstIsStored(stored.vault, c);
    KeptByRun(env, stored, between, c.origin, c);
    KeptThenUnlockFill(env, Run(env, stored, between), c, password, aad, pin, fillAad);
  }

  /** A performed save or generate survives whatever comes between, locks, lockouts and
      wrong guesses included: once the engine takes the right PIN again, a fill of the
      origin types its password exactly when the limiter and the popup gate let it. */
  lemma StoreUnlockFill(env: Env, e: Engine, stored: Engine, cmd: Command, aad: Aad,
                        between: seq<Event>, pin: string, fillAad: Aad)
    requires Keyed(e.vault) && cmd.kind in {RequestSave, RequestGenerate} && CText(PasswordFor(env, cmd))
    requires e.DeviceCall(env, cmd, aad).1.performed && stored == e.DeviceCall(env, cmd, aad).0
    requires First(stored.vault, cmd) && OpensWith(env, Run(env, stored, between), pin)
    requires forall i :: 0 <= i < |between| ==> Avoids(between[i], SavedKey(cmd))
    ensures var e' := Run(env, stored, between);
      var out := Step(env, e', UnlockWithPin(pin)).0.DeviceFill(env, cmd.origin, fillAad).1;
      && (out.performed <==>
            && Admission(e', cmd.origin).allowed && Typable(PasswordFor(env, cmd))
            && (e'.machine.settings.autoPopup || !e'.machine.settings.manualPopupTouch))
      && (out.performed ==> out.typedPassword == PasswordFor(env, cmd))
  {
    var c := CallStores(env, e, cmd, aad);
    StoredIsFillableIff(env, c, cmd, aad);
    StoredUnlockFill(env, stored, c, PasswordFor(env, cmd), aad, between, pin, fillAad);
  }
}
