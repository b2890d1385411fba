# Verification of the SafeKeyVault firmware logic

A Dafny model of the decision logic under `firmware/src`, with proofs. Each file
models one source file; the `...Laws` files state what holds over whole runs.

| files | source | subject |
|---|---|---|
| `StateMachine.dfy`, `LockoutLaws.dfy` | `state_machine.c` | PIN entry, growing lockout, wipe, autolock |
| `StorageBackend.dfy`, `StorageLaws.dfy`, `WearLaws.dfy` | `storage_backend.c` | two flash slots under power cuts |
| `ActionEngine.dfy`, `EngineLaws.dfy`, `GateLaws.dfy`, `FillLaws.dfy`, `SelectLaws.dfy` | `action_engine.c` | pending requests, confirmations, the device API |
| `EngineLockLaws.dfy`, `EngineGuardLaws.dfy`, `EngineRateLaws.dfy` | `action_engine.c` | lock, lockout and rate limit over engine runs |
| `Vault.dfy`, `VaultLaws.dfy` | `vault.c` | the credential array as an ordered map |
| `RateLimiter.dfy`, `RateLimiterLaws.dfy` | `rate_limiter.c` | fixed windows per origin |
| `CommandCodec.dfy`, `CodecLaws.dfy`, `LineLaws.dfy` | `command_codec.c` | printing and tokenizing commands |
| `Base32.dfy` | `totp.c` | Base32 regrouping |
| `Hex.dfy`, `Envelope.dfy` | `crypto_engine.c`, `atecc608a_driver.c` | hex and the `v1:` password envelope |
| `Fat12.dfy` | `usb_msc.c` | packed 12-bit table entries |
| `BrowserProtocol.dfy` | `browser_protocol.c` | command validation, as a predicate |
| `Basics.dfy`, `Arithmetic.dfy`, `CStrings.dfy` | | integers of fixed width, bytes, C strings |

State that the C code updates in place is a class whose methods do the same steps on
the same fields and arrays; each method is proved equal to a function on values, and
the laws are about these functions. A run is a sequence of events; laws over runs are
for every sequence. Unsigned arithmetic wraps where it does in C, C strings are the
characters before the NUL, and `strncpy` into a buffer is a cut (`Clip`).

Parameters stand for what lies outside: the PIN hash, the AEAD hash, the password
lists and the generator are arbitrary functions; the associated data of each
encryption, the PIN, origins and true time are inputs; power cuts are a number of
completed flash steps.

## Where the code differs from what is said about it

- `firmware/tests/test_main.c:79-86` expects ten wrong guesses to wipe the device under
  the default settings; the default is no wipe (`firmware/src/state_machine.c:24`). The
  model follows the code: `LockoutLaw` proves that without the flag no run wipes.
- The wipe and the lockout are fields of the context, so a new initialisation clears
  both (`firmware/src/state_machine.c:43-48`): `InitForgives`, and `WipedUntilInit` for
  the exact condition over runs.
- `docs/SECURITY_MODEL.md` asks for no output while locked. A bare `confirm_hold` does
  not read the flag: `FillLockHold` is the run that types on a locked device,
  `HoldPerformsIff` says on the state before a hold when it types, and
  `NoOutputWhileLockedIff` is the exact condition over whole runs. What such a hold
  does to the lock flags is exact in `HoldIsSafeIff` and `DeviceSafety`. During a
  lockout it even reopens guessing (`HoldReopensGuessingIff`).
- It also asks for the manual-popup gate to be respected. A hold respects it and a tap
  does not (`FillTapTap`); `GateHoldsIff` says exactly what types while the gate is on.
- The slots of the rate limiter are never released, so sixteen origins shut out every
  other one for good (`SixteenOriginsFill`, `SeventeenthOriginRefused`).
- The protocol notes under `docs/` promise to reject values longer than their buffers;
  the decoder cuts them (`LongFieldsAreCut`, and `OverlongOriginAccepted` for one). It
  also compares the long type names by their first sixteen characters only
  (`TypeRecognisedIff`, `UnknownTypeAccepted`).
- The nonce check against the 32-bit range has an effect only where `unsigned long` is
  wider than that (`DigitNonce`); the decoder takes the width as a parameter.
- The Base32 table is one letter off Table 3 in section 6 of RFC 4648: `A` is refused
  and `B` is 0 (`firmware/src/totp.c:21-22`, `TableIsOff`). Only the regrouping is claimed.
- The header checksum is meant to cover the three header words
  (`firmware/src/storage_backend.c:150` and `:232`); the length in the C expression
  comes to fifteen bytes, the checksum byte and two bytes of padding included. The
  backend is modelled with either (`Cover`) and the laws say which they are about. As
  written, a completed write is readable only if the bytes of its words and padding
  cancel out (`ReadBackIff`, and `FirstWriteLost` for one that is lost), and
  incrementing the checksum corrupts nothing (`CorruptionCorruptsNothing` for two such
  records, `CorruptRevealsIff` for the exact condition), and the slots wear evenly only
  under the condition of `WearStaysEvenIff`.
- The reads that ask for a whole sector are taken for reads of one slot.
- `clear_pending` at `firmware/src/action_engine.c:76` and `:329` is taken for the
  function defined at `:24`.

## Model

| member | source | states |
|---|---|---|
| `StateMachine.Device.Tick` | firmware/src/state_machine.c:54-76 | a tick serves one lockout tick and reopens an unwiped device when none is left; otherwise it ages an unlocked session and locks it at the autolock time; nothing else changes |
| `StateMachine.Device.OnTouchTap` | firmware/src/state_machine.c:78-101 | a tap moves exactly the prompt states of an unlocked device and always resets the idle time |
| `StateMachine.Device.OnTouchHold` | firmware/src/state_machine.c:103-128 | a hold moves exactly the unlocked, fill-prompt and edit states of an unlocked device and always resets the idle time |
| `StateMachine.Device.ScanPin` | firmware/src/state_machine.c:156-161 | the digit scan stopping at the first other character accepts exactly the strings of five digits |
| `StateMachine.Device.TryUnlock` | firmware/src/state_machine.c:130-194 | unlocks exactly when the guess is taken and is five digits hashing to the verifier; a wrong guess that is taken raises the 32-bit count and locks, locks out or wipes by the settings; a refused guess changes nothing |
| `StateMachine.Device.SetPin` | firmware/src/state_machine.c:196-256 | replaces the verifier exactly for an unlocked, unwiped device given the right old PIN and a well-formed new one |
| `StateMachine.Device.RequestFillFor` | firmware/src/state_machine.c:258-316 | accepts a fill exactly when unlocked, validated and of the same origin, and then shows the touch prompt or goes straight to confirmation by settings and record |
| `StateMachine.Device.RequestSaveOf` | firmware/src/state_machine.c:318-369 | accepts a save exactly when unlocked, allowed by the password policy and validated |
| `StateMachine.Device.ApplySettings` | firmware/src/state_machine.c:382-400 | stores the settings with zero autolock and unknown attempt limits replaced by their defaults |
| `StateMachine.Device.Lock` | firmware/src/state_machine.c:35-41 | ends the session and keeps a lockout in force |
| `LockoutLaws.GuessUnlocksIff` | firmware/src/state_machine.c:130-194 | a guess on a machine that is not wiped, has a verifier and owes no ticks in a lockout unlocks it if and only if it is five digits hashing to the verifier; unlocked means UNLOCKED with nothing on record, owed or idle, and verifier and settings as they were |
| `LockoutLaws.GuessIgnored` | firmware/src/state_machine.c:136-145 | any other machine is left as it was |
| `LockoutLaws.WrongGuessIff` | firmware/src/state_machine.c:174-189 | a wrong guess wipes if and only if the wipe is on and ten are on record, and else starts a lockout of 2(n-L)+3 ticks if and only if the limit is reached |
| `LockoutLaws.PinChangeTakes` | firmware/src/state_machine.c:196-256 | after a PIN change and a lock guesses are judged by the new PIN if the old one was right and both are five digits, and by the old one otherwise |
| `LockoutLaws.LockEndsSession` | firmware/src/state_machine.c:35-41 | a lock ends the session and nothing else |
| `LockoutLaws.GesturesLead` | firmware/src/state_machine.c:78-128 | the two gestures move an unlocked device along two tables of states, and reset the idle time of any |
| `LockoutLaws.FillGestures` | firmware/src/state_machine.c:78-316 | an accepted fill takes two gestures, the last one a tap, or one tap if no prompt is shown; a hold alone never confirms |
| `LockoutLaws.SaveGestures` | firmware/src/state_machine.c:78-369 | an accepted save takes a tap and then a hold |
| `LockoutLaws.FillAcceptedIff` | firmware/src/state_machine.c:258-316 | a fill request is accepted if and only if the device is unlocked, neither wiped nor locked out, the record is of the very origin asked for, and all is valid |
| `LockoutLaws.SavePromptIff` | firmware/src/state_machine.c:318-369 | the save prompt comes up only, and always, for a valid password the policy passed on an unlocked device |
| `LockoutLaws.SettingsUsable` | firmware/src/state_machine.c:382-400 | applied settings are usable, as asked for if that was usable, and fall back to the defaults field by field |
| `LockoutLaws.RunKeepsCoherent` | firmware/src/state_machine.c:35-128 | over every run of the state machine, settings changes included, `unlocked` holds exactly outside LOCKED and LOCKED_OUT, and LOCKED_OUT exactly while wiped or with ticks to wait |
| `LockoutLaws.TryUnlockKeepsCoherent` | firmware/src/state_machine.c:163-190 | a PIN attempt keeps that meaning even where the lockout length wraps in 32 bits, because it stays odd |
| `LockoutLaws.LockoutLaw` | firmware/src/state_machine.c:54-194 | the quadratic law: since the last initialisation or unlock, ticks served in lockout plus ticks still owed are (n-L+1)(n-L+3) once the n wrong guesses have reached the limit L, and zero before; n > L guesses cost at least (n-L)(n-L+2) ticks; with the wipe off the device is never wiped |
| `LockoutLaws.ReplayKeepsLaw` | firmware/src/state_machine.c:54-194 | the law is an invariant from any state that satisfies it, under any settings changes that keep limit and wipe flag |
| `LockoutLaws.WrongGuessKeepsLawIff` | firmware/src/state_machine.c:174-189 | one wrong guess extends the law by exactly its own penalty if and only if that penalty, 2(n-L)+5 ticks, fits 32 bits |
| `LockoutLaws.PenaltyWraps` | firmware/src/state_machine.c:186-188 | a concrete count for which the unsigned penalty wraps to one tick, so the law needs its bound on elapsed ticks |
| `LockoutLaws.WipeLaw` | firmware/src/state_machine.c:178-183 | with the wipe on throughout, the device is wiped exactly when the failed count stands at ten, and the count never passes ten |
| `LockoutLaws.WipedUntilInit` | firmware/src/state_machine.c:43-48 | a wiped device stays wiped all along a run if and only if no new initialisation occurs in it, and is then never unlocked, whatever settings are applied |
| `LockoutLaws.InitForgives` | firmware/src/state_machine.c:43-48 | an initialisation forgives the ticks owed and the wrong guesses on record, and lifts the wipe |
| `LockoutLaws.IdleBelowAutolock` | firmware/src/state_machine.c:69-75 | with the autolock time fixed, an unlocked device has always been idle for less than it |
| `LockoutLaws.AutolockLaw` | firmware/src/state_machine.c:69-75 | from every state a run from power-on reaches, autolock_seconds ticks in a row leave the device not unlocked |
| `LockoutLaws.TicksLockIff` | firmware/src/state_machine.c:69-75 | ticks alone lock an unlocked device exactly when the idle time reaches the autolock time, and until then change nothing else |
| `LockoutLaws.TouchRestartsAutolock` | firmware/src/state_machine.c:78-369 | a gesture or an accepted request starts the idle time over |
| `LockoutLaws.TicksServe` | firmware/src/state_machine.c:59-68 | ticks alone end a lockout exactly when all that were owed have been served |
| `Storage.StorageBackend.CalculateCrc8` | firmware/src/storage_backend.c:37-43 | the loop computes the exclusive or of all bytes |
| `Storage.StorageBackend.WriteFlashSector` | firmware/src/storage_backend.c:60-142 | after any number of steps the sector is untouched, erased, or the image up to a word boundary and erased behind it; success exactly when all 69 steps were powered |
| `Storage.StorageBackend.EraseAndProgram` | firmware/src/storage_backend.c:110-133 | the erase and word loop leave exactly the flash of that many steps |
| `Storage.StorageBackend.WriteAtomic` | firmware/src/storage_backend.c:197-252 | refuses bad sizes untouched; otherwise writes the next generation over the invalid or older slot, as far as the power lasts, under the checksum meant or the one written |
| `Storage.StorageBackend.ReadLatest` | firmware/src/storage_backend.c:254-311 | returns payload and schema of the valid slot of higher generation if it fits the buffer, and nothing otherwise, under either checksum |
| `Storage.StorageBackend.CorruptLatest` | firmware/src/storage_backend.c:330-370 | rewrites the slot in use with its checksum incremented, as far as the power lasts; success exactly when there was one and all 69 steps were powered |
| `Storage.StorageBackend.Wipe` | firmware/src/storage_backend.c:372-444 | erases the sectors one after the other as far as the power lasts, and only when both are erased succeeds and leaves the backend uninitialised |
| `StorageLaws.ReadsLog` | firmware/src/storage_backend.c:60-311 | from erased flash, over every run of writes each cut at any step and under either checksum, read_latest returns exactly the last record of an append log: each write that leaves a valid slot adds one, its payload as far as programmed and erased bytes behind |
| `StorageLaws.HoldsRecords` | firmware/src/storage_backend.c:60-444 | over every run of writes, corruptions and wipes cut at any step, under either checksum, the two slots hold exactly the records of that run - a write keeps the one in use and adds its own if it commits, a corruption rewrites the one in use or drops it, a wipe drops one side and then all - and a reader gets the last |
| `StorageLaws.WipeErases` | firmware/src/storage_backend.c:372-444 | a wipe erases the first slot and then the second byte by byte; completed it leaves nothing to read in any buffer, and the next record is the first again |
| `StorageLaws.CorruptBumps` | firmware/src/storage_backend.c:330-370 | a completed corruption adds one to one checksum byte and changes no other byte of either slot |
| `StorageLaws.Recovery` | firmware/src/storage_backend.c:60-311 | when each write is cut before its length word or past its last payload word, and under the checksum that was meant, that record is exactly the last one that got past its payload |
| `StorageLaws.TornIsWholeIff` | firmware/src/storage_backend.c:110-133 | a record so read has its payload whole if and only if the write got past it or the missing tail is all 255 |
| `StorageLaws.CutWrite` | firmware/src/storage_backend.c:197-252 | one write cut at any step, on any flash: the slot in use is untouched, and the new record takes over, with generation, schema, length and the payload so far, exactly when the cut leaves a valid slot |
| `StorageLaws.CutRead` | firmware/src/storage_backend.c:197-311 | what a reader with any buffer gets after that write: the new record as far as programmed, or just what it got before |
| `StorageLaws.CutValid` | firmware/src/storage_backend.c:144-153 | exactly which cuts leave a slot that counts as valid, under either checksum |
| `StorageLaws.AsWrittenChecksParity` | firmware/src/storage_backend.c:144-153 | the checksum as written matches if and only if the header words and two bytes of padding cancel out, whatever the checksum byte is |
| `StorageLaws.ImageFields` | firmware/src/storage_backend.c:227-233 | the slot image holds generation, schema, length and payload; it is valid under the checksum meant, and under the one written if and only if its words and padding cancel out |
| `StorageLaws.FirstWriteReadableIff` | firmware/src/storage_backend.c:197-311 | with the checksum as written a completed first write is read back if and only if its words and padding cancel out |
| `StorageLaws.FirstWriteLost` | firmware/src/storage_backend.c:227-233 | one that is not: one byte under schema one with zeroed padding |
| `StorageLaws.TargetNotLatest` | firmware/src/storage_backend.c:235-244 | the slot chosen for writing is never the one read_latest would return |
| `StorageLaws.ReadBackIff` | firmware/src/storage_backend.c:207-233 | a completed write is the one read back if and only if the latest generation was not 2^32-1 and, with the checksum as written, its words and padding cancel out |
| `StorageLaws.RunKeepsDiscipline` | firmware/src/storage_backend.c:163-252 | over every run of writes and corruptions cut anywhere, under either checksum, two valid slots are exactly one generation apart |
| `StorageLaws.SlotDiscipline` | firmware/src/storage_backend.c:163-252 | in all those states the next write erases a slot not in use and the slot in use survives each of its steps |
| `StorageLaws.CorruptRevealsIff` | firmware/src/storage_backend.c:330-370 | with two records, a corruption makes the earlier one the latest if and only if the slot does not survive it: under the checksum meant at every cut but one, under the one written never once the checksum word is in |
| `StorageLaws.CorruptionCorruptsNothing` | firmware/src/storage_backend.c:330-370 | two records for which a completed corruption makes the first one the latest under the checksum meant and leaves the second in use under the one written |
| `WearLaws.WearStaysEven` | firmware/src/storage_backend.c:235-244 | under the checksum meant, uninterrupted writes keep the two erase counts within one of each other, refused requests in between included |
| `WearLaws.WearStaysEvenIff` | firmware/src/storage_backend.c:197-244 | under either checksum and for writes cut anywhere behind the erase: the erase counts stay within one of each other all along a run if and only if every odd-numbered write but the last takes effect |
| `WearLaws.EvenIff` | firmware/src/storage_backend.c:235-244 | the same of the sequence of effects alone |
| `WearLaws.UnreadableWearsOneSlot` | firmware/src/storage_backend.c:235-244 | under the checksum as written, completed writes none of which would be a readable first record store nothing and all erase the same slot |
| `ActionEngine.ActionEngine.constructor` | firmware/src/action_engine.c:69-90 | initialisation clears limiter, nonce and pending request and sets the recorded or default PIN verifier |
| `ActionEngine.ActionEngine.PassGate` | firmware/src/action_engine.c:103-148 | replay, wipe, rate, lock and validation gates in this order, each with its effect and its refusal |
| `ActionEngine.ActionEngine.HandleFill` | firmware/src/action_engine.c:151-179 | a fill becomes pending with the first stored credential of the origin, exactly when it decrypts and the state machine accepts |
| `ActionEngine.ActionEngine.HandleSave` | firmware/src/action_engine.c:181-219 | a save becomes pending with the next id and the sealed password, unless too short or not sealable |
| `ActionEngine.ActionEngine.HandleGenerate` | firmware/src/action_engine.c:221-256 | a generated password becomes a pending save and is reported |
| `ActionEngine.ActionEngine.HandleSelect` | firmware/src/action_engine.c:258-273 | a selection makes the next index pending and touches only kind, index and state |
| `ActionEngine.ActionEngine.Handle` | firmware/src/action_engine.c:92-279 | a command is gated and then answered by its kind |
| `ActionEngine.ActionEngine.CommitPending` | firmware/src/action_engine.c:295-331 | the pending credential is upserted and reported as new or updated; failures keep the request pending |
| `ActionEngine.ActionEngine.Tap` | firmware/src/action_engine.c:333-385 | what a tap does to each pending kind in each state |
| `ActionEngine.ActionEngine.Hold` | firmware/src/action_engine.c:387-454 | what a hold does to each pending kind, with the manual-popup gate |
| `ActionEngine.ActionEngine.CallDevice` | firmware/src/action_engine.c:471-554 | a one-call operation is the command and, if allowed, its hold |
| `ActionEngine.ActionEngine.ApplyDeviceSettings` | firmware/src/action_engine.c:581-615 | settings are applied, ungated, on an unlocked device only |
| `ActionEngine.ActionEngine.PressButton` | firmware/src/action_engine.c:629-639 | a press fills a known origin and opens the settings popup otherwise |
| `ActionEngine.ActionEngine.TryChangePin` | firmware/src/action_engine.c:456-469 | succeeds exactly when the state machine takes the change, and then updates the verifiers of engine and state machine together |
| `EngineLockLaws.DeviceSafety` | firmware/src/action_engine.c:92-554 | over every run of commands, taps, holds, the one-call API, buttons, unlock, lock, ticks and settings, the lock flags keep their meaning all along if and only if every bare hold came on an unlocked device or had nothing to perform; then text is typed only on a device unlocked and not wiped |
| `EngineLockLaws.DeviceApiSafety` | firmware/src/action_engine.c:471-554 | so runs without bare holds keep the meaning of the flags and type only on a device unlocked and not wiped, without any condition |
| `EngineLockLaws.NoOutputWhileLockedIff` | firmware/src/action_engine.c:333-554 | over every run of all events, each text it types is typed on an unlocked, unwiped device if and only if every bare hold in it came on an unlocked device or had no text to type |
| `EngineLockLaws.StepTypesSafelyIff` | firmware/src/action_engine.c:333-554 | the same of one event, from any state where wiped is not unlocked and a fill waits in UNLOCKED only on an unlocked device, which every event keeps |
| `EngineLockLaws.HoldPerformsIff` | firmware/src/action_engine.c:387-454 | a hold performs, and types, exactly under conditions on the pending request, the vault and the popup gate that can be checked before it |
| `EngineLockLaws.HoldIsSafeIff` | firmware/src/action_engine.c:387-454 | a bare hold keeps the meaning of the flags if and only if the device is unlocked or there is nothing it will perform |
| `EngineLockLaws.FillLockHold` | firmware/src/action_engine.c:400-426 | an allowed fill, then a lock, then a hold types on the locked device unless the popup gate is on, and leaves UNLOCKED with the flag down |
| `EngineLockLaws.HoldReopensGuessingIff` | firmware/src/action_engine.c:400-454 | during a lockout guesses are refused, and a bare hold makes them possible again if and only if it will perform something |
| `EngineLockLaws.GateHoldsIff` | firmware/src/action_engine.c:351-410 | with the manual-popup gate on, exactly what types: a hold after the button, a tap regardless, and no one-call operation |
| `EngineLockLaws.FillTapTap` | firmware/src/action_engine.c:351-372 | an allowed fill and two taps type, gate or no gate |
| `EngineLockLaws.SomeFillIsAllowed` | firmware/src/action_engine.c:145-179 | under every environment and all settings such a fill exists |
| `EngineGuardLaws.EngineLockoutLaw` | firmware/src/state_machine.c:54-194 | the quadratic law over whole engine runs, whatever comes between the guesses: it holds all along a run if and only if no bare hold performed anything during a lockout |
| `EngineGuardLaws.CountedKeepsLawIff` | firmware/src/action_engine.c:387-454 | one event keeps the law if and only if it is not a bare hold that performs something during a lockout |
| `EngineGuardLaws.QuietStep` | firmware/src/action_engine.c:92-639 | no event but a tick or a PIN attempt moves a counter of the lock or unlocks, and none but a performing bare hold ends a lockout |
| `EngineGuardLaws.EngineWipeLaw` | firmware/src/state_machine.c:178-183 | with the wipe on throughout, over every run of the engine, the device is wiped exactly when ten wrong guesses are on record, never more |
| `EngineGuardLaws.EngineWipedStaysLocked` | firmware/src/state_machine.c:136-139 | no run of the engine unlocks a wiped device |
| `EngineGuardLaws.EngineAutolockLaw` | firmware/src/state_machine.c:69-75 | after every run of the engine from power-on, autolock_seconds ticks in a row leave the device not unlocked |
| `EngineGuardLaws.VerifiersAgree` | firmware/src/action_engine.c:456-469 | over every run the recorded verifier and the one guesses are judged by stay the same, and only an accepted PIN change moves them |
| `EngineGuardLaws.DeviceSettingsUngate` | firmware/src/action_engine.c:556-615 | the device settings and the popup button switch every interaction gate off, the first only on an unlocked device |
| `EngineGuardLaws.UngatedStays` | firmware/src/action_engine.c:556-615 | and off they stay over every run without a direct change of the settings |
| `SelectLaws.SelectPerformsIff` | firmware/src/action_engine.c:544-554 | a one-call selection is performed if and only if the device is unlocked, the limiter admits it and there is a credential, and moves on to the next one |
| `SelectLaws.SelectionsGoAround` | firmware/src/action_engine.c:258-273 | n selections in a row leave the entry n places on selected, around at the end |
| `EngineLockLaws.HandleIsSafe` | firmware/src/action_engine.c:92-279 | a command never types, never unlocks, and is allowed only on an unlocked, unwiped device |
| `GateLaws.GateIff` | firmware/src/action_engine.c:103-148 | a command passes the gates if and only if its nonce is zero or above the last, the device is unlocked and neither wiped nor locked out, the limiter admits it under its key, and it is valid; with the nonce, clock and limiter they leave |
| `GateLaws.RefusalIff` | firmware/src/action_engine.c:108-148 | which of the five reasons a refusal gives |
| `GateLaws.FillAllowedIff` | firmware/src/action_engine.c:151-179 | a fill is allowed if and only if it passes and the first credential of its origin decrypts and is valid to type |
| `GateLaws.SaveAllowedIff` | firmware/src/action_engine.c:181-219 | a save is allowed if and only if it passes and its password has 8 to 48 characters; common and reused ones are reported and marked |
| `GateLaws.GenerateAllowedIff` | firmware/src/action_engine.c:221-256 | a generate command is allowed if and only if it passes and the generator gives 8 to 48 characters |
| `GateLaws.SelectAllowedIff` | firmware/src/action_engine.c:258-273 | a selection is allowed if and only if it passes and there is a credential, and makes the next index pending |
| `GateLaws.RequestStamps` | firmware/src/action_engine.c:181-256 | a pending credential carries the clock of its request, which moves on |
| `GateLaws.RequestReports` | firmware/src/action_engine.c:151-279 | what an allowed request asks of the user and recommends, and that it uses up an earlier press of the popup button |
| `GateLaws.StorePerformsIff` | firmware/src/action_engine.c:471-542 | a one-call save or generate is performed if and only if it passes, its password has 8 to 48 characters, and its key is stored or there is room |
| `GateLaws.FreshNonceIff` | firmware/src/action_engine.c:108-114 | after any run a nonce is fresh exactly if it is above the first and all that were received |
| `GateLaws.FreshFillIsAllowedIff` | firmware/src/action_engine.c:108-179 | so after any run a fill with such a nonce for a fillable credential is allowed exactly when the limiter admits it and the device is unlocked |
| `GateLaws.HoldEndsFillIff` | firmware/src/action_engine.c:400-426 | a hold ends a pending fill exactly if the popup gate lets it, decrypted or not, and uses up the press |
| `GateLaws.TapEndsFillIff` | firmware/src/action_engine.c:349-385 | a tap on a pending fill asks for another or ends it |
| `GateLaws.TapAsksForHold` | firmware/src/action_engine.c:373-385 | a tap on any other request leaves it and asks for a hold |
| `GateLaws.HoldEndsIff` | firmware/src/action_engine.c:295-450 | a hold ends a pending save exactly if it stores it, and a selection in any case |
| `GateLaws.CallEndsIff` | firmware/src/action_engine.c:471-554 | a one-call operation that is not allowed leaves the pending request and the vault as they were, and a performed one leaves none |
| `GateLaws.StoreReports` | firmware/src/action_engine.c:315-327 | a hold that stores reports an update or a new record by whether the key was known |
| `EngineLockLaws.TapTypesIff` | firmware/src/action_engine.c:333-385 | a tap types exactly when a fill with text is pending and the prompt state has come to UNLOCKED |
| `EngineLockLaws.TapIsSafe` | firmware/src/action_engine.c:333-385 | a tap keeps the meaning of the flags and types only on an unlocked, unwiped device |
| `EngineLaws.OriginBinding` | firmware/src/action_engine.c:145-179 | under every interleaving a pending fill is bound to the validated origin and the stored credential last allowed, and any typed text is that credential of that origin, decrypted |
| `EngineLaws.StepBinds` | firmware/src/action_engine.c:333-426 | one event keeps the binding, from any state that has it |
| `EngineLaws.FreshIds` | firmware/src/action_engine.c:198-209 | over every run of fewer than 2^32-1 events from an empty vault, keys and ids stay pairwise distinct and a pending save has an id above all stored ones |
| `EngineLaws.CreatedIffGrown` | firmware/src/action_engine.c:315-327 | any event reports a new record exactly when the vault grew by one |
| `FillLaws.SaveThenFill` | firmware/src/action_engine.c:36-67 | after a performed save and any events saving under other keys, if the saved username is the earliest stored for the origin, a fill of it is performed exactly when the limiter admits it, the device is unlocked, not locked out and not wiped, and the popup gate is off; it then types exactly the saved password, and exactly the username if that has at most 63 characters |
| `FillLaws.GenerateThenFill` | firmware/src/action_engine.c:221-256 | likewise for a performed generate: the fill types exactly what the generator gave, which is what the command reported, provided it may be typed |
| `FillLaws.StoreUnlockFill` | firmware/src/state_machine.c:130-194 | whatever comes between, locks, lockouts and wrong guesses included: once the right PIN is taken, a fill types the stored password exactly when limiter and popup gate let it |
| `FillLaws.UnlockThenFill` | firmware/src/state_machine.c:163-175 | a right PIN given to any engine that takes it opens it for fills |
| `GateLaws.FillPerformsIff` | firmware/src/action_engine.c:495-513 | a one-call fill of the first credential of an origin is performed if and only if admitted, with the popup gate off, and the credential can be filled |
| `FillLaws.StoredIsFillableIff` | firmware/src/action_engine.c:36-67 | what a valid save or generate stores can be filled if and only if its password may be typed |
| `FillLaws.CallStores` | firmware/src/action_engine.c:471-542 | a performed save or generate binds its key to a credential holding the sealed password, of 8 to 48 characters |
| `FillLaws.FillTypesFirst` | firmware/src/action_engine.c:495-513 | a performed fill types what the first credential of the origin decrypts to |
| `FillLaws.KeptByRun` | firmware/src/action_engine.c:92-331 | no run that saves nothing under a key disturbs the credential a fill finds |
| `GateLaws.ReplayHasNoEffect` | firmware/src/action_engine.c:108-114 | once a nonce was received, every later command with a nonzero nonce not above it is refused without any effect, whatever happened in between |
| `Vaults.Vault.FindEntryByOrigin` | firmware/src/vault.c:16-32 | the loop finds the first live entry of the origin or reports none |
| `Vaults.Vault.GetByIndex` | firmware/src/vault.c:34-43 | the entry at an index in range and live, or none |
| `Vaults.Vault.Upsert` | firmware/src/vault.c:45-71 | overwrites the first entry with the key, else appends if there is room, else fails unchanged |
| `Vaults.Vault.HasEntry` | firmware/src/vault.c:90-105 | whether some live entry has origin and username |
| `Vaults.Vault.FreshId` | firmware/src/vault.c:107-122 | one more than the largest id in use, or 0 when that is 2^32-1 |
| `Vaults.Vault.FindByOriginIndexed` | firmware/src/vault.c:124-155 | the circular loop with its modulus finds the first match in circular order |
| `VaultLaws.UpsertIsMapUpdate` | firmware/src/vault.c:45-71 | upsert is map update: the record is found under its key afterwards and every other key finds what it found before |
| `VaultLaws.UpsertKeepsOrder` | firmware/src/vault.c:45-71 | upsert keeps keys distinct and in insertion order, new ones last, and fails only on a new key in a full vault |
| `VaultLaws.OnlyLiveStored` | firmware/src/vault.c:45-50 | nothing but a live record is ever stored |
| `VaultLaws.FindsFirstLive` | firmware/src/vault.c:16-32 | an origin is found if and only if a live entry has it, and then the first one |
| `VaultLaws.NextIdFresh` | firmware/src/vault.c:107-122 | the next id exceeds all ids in use if and only if none of them is 2^32-1, and is zero otherwise |
| `VaultLaws.FindLands` | firmware/src/vault.c:124-155 | the circular search lands on the list position given by how many matches lie before the start |
| `VaultLaws.VisitsInOrder` | firmware/src/vault.c:124-155 | searching on from one past each hit walks the matches in order and around |
| `VaultLaws.VisitsEachOnce` | firmware/src/vault.c:124-155 | from any start index one cycle of searches hits every match exactly once and then returns to the first hit |
| `VaultLaws.VisitsOnlyMatches` | firmware/src/vault.c:146-152 | every hit is a live entry of the origin |
| `RateLimiting.RateLimiter.FindSlot` | firmware/src/rate_limiter.c:5-24 | the one-pass loop returns the first slot of the origin, else the first free one |
| `RateLimiting.RateLimiter.TryAllow` | firmware/src/rate_limiter.c:33-69 | opens, renews, counts or denies in the slot of the origin, with the retry time |
| `RateLimiterLaws.SlidingBound` | firmware/src/rate_limiter.c:33-69 | over any run with a non-decreasing clock, wrapping or not, no origin is allowed more than 2M times in any interval of one window length |
| `RateLimiterLaws.WindowBound` | firmware/src/rate_limiter.c:56-68 | since the slot or window start of an origin last changed no more than M of its calls were allowed |
| `RateLimiterLaws.RefusedUntilRetry` | firmware/src/rate_limiter.c:60-66 | after a denial with a retry time every call of that origin before that time is refused, whatever calls come between |
| `RateLimiterLaws.AllowedAtRetry` | firmware/src/rate_limiter.c:56-68 | and the next call at that time, at most one window later, is allowed |
| `RateLimiterLaws.NoRetryIff` | firmware/src/rate_limiter.c:35-48 | a denial comes without a retry time if and only if window or maximum is zero or the origin has no slot, so every count-based one has it |
| `RateLimiterLaws.RefinesMap` | firmware/src/rate_limiter.c:5-69 | one call, from any table without duplicates: for origins that fit a slot, same verdict, retry time and windows as a map, and never two slots for one origin |
| `RateLimiterLaws.RunRefinesMap` | firmware/src/rate_limiter.c:5-69 | over every run from the initial table the array stands for the map of at most sixteen windows that the same run yields, and answers the next call as that map does |
| `RateLimiterLaws.RememberedIffShort` | firmware/src/rate_limiter.c:50-55 | an allowed call is found again if and only if its origin has at most 95 characters |
| `RateLimiterLaws.LongOriginNotLimited` | firmware/src/rate_limiter.c:50-55 | two calls of a longer origin in one tick are both allowed under a limit of one |
| `RateLimiterLaws.SlotStays` | firmware/src/rate_limiter.c:5-24 | no call moves the slot of another origin or changes what it holds |
| `RateLimiterLaws.NoSlotIff` | firmware/src/rate_limiter.c:5-24 | an origin has no slot to go to if and only if sixteen others have them all |
| `RateLimiterLaws.SeventeenthRefused` | firmware/src/rate_limiter.c:46-49 | such an origin is refused for good, whatever calls come and however much time passes |
| `RateLimiterLaws.SixteenOriginsFill` | firmware/src/rate_limiter.c:5-24 | sixteen calls of the first tick bring that about |
| `EngineRateLaws.EngineRateBound` | firmware/src/action_engine.c:117-131 | over every run of the engine its limiter is that of the calls the run makes, in the order of its clock, and no more than thirty commands of an origin are admitted within its window |
| `EngineRateLaws.PassedIsAdmitted` | firmware/src/action_engine.c:103-148 | no command passes the gates without being admitted |
| `EngineRateLaws.SeventeenthOriginRefused` | firmware/src/action_engine.c:117-131 | once sixteen origins have the slots, no command of another one passes the gates, over every run of the engine |
| `CommandCodec.TrimNewline` | firmware/src/command_codec.c:9-19 | the in-place loop strips exactly the newline characters at the end |
| `CommandCodec.NextToken` | firmware/src/command_codec.c:66-107 | one step of the destructive tokenizer: separators skipped, token bounded and terminated, the rest untouched |
| `CommandCodec.ReadTokens` | firmware/src/command_codec.c:65-108 | the loop over the buffer reads exactly the fields of the line |
| `CommandCodec.DecodeLineInPlace` | firmware/src/command_codec.c:45-123 | a line decodes exactly when it fits, every token is a known field with a readable value, and a type was seen |
| `CommandCodec.DecodeFrame` | firmware/src/command_codec.c:196-219 | a frame of 1 to 511 bytes decodes as the line before its first NUL |
| `CommandCodec.EncodeInto` | firmware/src/command_codec.c:147-194 | the buffer ends up holding the whole frame and NULs, or only NULs |
| `CodecLaws.RoundTrip` | firmware/src/command_codec.c:45-219 | for every command of the four types, decoding its encoding gives it back if and only if no field holds a semicolon and the password does not end in CR or LF |
| `CodecLaws.DecodeEncode` | firmware/src/command_codec.c:45-219 | a frame of fields of any length without separators, if shorter than 512, is accepted: newlines at the end of the password dropped, then each field cut to its buffer |
| `CodecLaws.LongFieldsAreCut` | firmware/src/command_codec.c:91-101 | a value longer than its buffer is never refused but cut, and the frame means what it says if and only if all values fit |
| `CodecLaws.OverlongOriginAccepted` | firmware/src/command_codec.c:91-101 | one such frame: an origin of 96 characters is taken for one of 95 |
| `CodecLaws.NormalForm` | firmware/src/command_codec.c:65-193 | the command of any accepted frame can be encoded, and decoding that gives the same command if and only if its password does not end in CR or LF |
| `CodecLaws.FrameFits` | firmware/src/command_codec.c:175-193 | a frame is at most 69 characters longer than its texts, so has 1 to 386 characters for any command that fits its buffers |
| `CodecLaws.DecodedIsClean` | firmware/src/command_codec.c:65-114 | a decoded command fits its buffers, holds no NUL and no semicolon, and has one of the four types |
| `CodecLaws.FrameRead` | firmware/src/command_codec.c:65-114 | the five printed fields are read back, cut to their buffers, whatever password text follows |
| `CodecLaws.NonceRoundTrip` | firmware/src/command_codec.c:82-89 | a printed nonce is read back, for every width of unsigned long |
| `CodecLaws.DigitNonce` | firmware/src/command_codec.c:82-89 | a nonce of digits beyond 32 bits is refused where unsigned long is wider and read as 2^32-1 where it is not |
| `CodecLaws.TypeRoundTrip` | firmware/src/command_codec.c:21-43 | comparing sixteen characters tells the four type names apart |
| `CodecLaws.TypeRecognisedIff` | firmware/src/command_codec.c:21-43 | exactly which type values are recognised: the short names as they are, the long ones by their first sixteen characters |
| `CodecLaws.UnknownTypeAccepted` | firmware/src/command_codec.c:21-43 | so names that are none of the four are accepted |
| `CodecLaws.EncodeIff` | firmware/src/command_codec.c:147-194 | a command is printed if and only if it has one of the four types and its frame fits |
| `LineLaws.DecodeIff` | firmware/src/command_codec.c:45-219 | exactly which frames are accepted, and as what: 1 to 511 bytes with a type and no token that cannot be read, each field what the last token of its key says |
| `LineLaws.FieldsSay` | firmware/src/command_codec.c:65-108 | the same of a line, from any command read so far |
| `LineLaws.NonceForms` | firmware/src/command_codec.c:82-89 | what white space, a sign and digits mean as a nonce |
| `LineLaws.NonceOnlyForms` | firmware/src/command_codec.c:82-89 | and that nothing else is one |
| `Base32.Decode` | firmware/src/totp.c:175-223 | accepts exactly the inputs whose characters are digits, padding or white space and whose floor(5n/8) bytes fit; the output in base 256 is floor(N / 2^(5n mod 8)) for the number N of the n digits, the grouping of section 6 of RFC 4648 |
| `Base32.Absorb` | firmware/src/totp.c:209-218 | one digit through the wrapping 32-bit accumulator keeps that relation |
| `Base32.DigitAdvances` | firmware/src/totp.c:209-218 | shift, or and byte extraction in 32 bits agree with unbounded arithmetic on the digits read so far |
| `Base32.NumberDetermines` | firmware/src/totp.c:175-223 | length and number determine the digit string, so the relation pins down every output byte |
| `Base32.TableIsOff` | firmware/src/totp.c:20-35 | how far the decode table is off the one of section 6 of RFC 4648: letters count one less, the first not at all |
| `Base32.AcceptableIff` | firmware/src/totp.c:186-207 | which characters an accepted input is made of |
| `Hex.EncodeInto` | firmware/src/crypto_engine.c:36-58 | writes the lower-case digits and a NUL if they fit, and nothing otherwise |
| `Hex.DecodeInto` | firmware/src/crypto_engine.c:75-102 | accepts exactly even-length hexadecimal text that fits and writes its bytes |
| `Hex.DecodeEncode` | firmware/src/crypto_engine.c:36-102 | decoding undoes encoding for all bytes |
| `Hex.EncodeDecode` | firmware/src/crypto_engine.c:36-102 | encoding decoded text gives it back in lower case |
| `Hex.EncodeIsPlain` | firmware/src/crypto_engine.c:36-58 | encoded text is hexadecimal ASCII without separator or NUL |
| `Hex.EncodeIsPositional` | firmware/src/crypto_engine.c:36-58 | each byte is written as a two-digit number in base sixteen |
| `Envelope.MaskInto` | firmware/src/atecc608a_driver.c:117-119 | the loop masks each byte with the repeating key and touches nothing behind |
| `Envelope.EncryptAead` | firmware/src/atecc608a_driver.c:98-134 | needs room for sixteen bytes more than it writes; ciphertext is the masked text, the tag covers associated data, ciphertext and key |
| `Envelope.DecryptAead` | firmware/src/atecc608a_driver.c:136-181 | unmasks exactly when the tag matches and the text fits, and otherwise leaves the buffer alone |
| `Envelope.EncryptInto` | firmware/src/crypto_engine.c:323-416 | prints the envelope of exactly the encryptable passwords into a buffer |
| `Envelope.DecryptInto` | firmware/src/crypto_engine.c:866-954 | the buffer starts with the decrypted password exactly when the envelope is accepted, and with an empty string on any failure |
| `Envelope.RoundTrip` | firmware/src/crypto_engine.c:323-416 | encryption accepts exactly passwords of 1 to 48 characters whose envelope fits, and decryption into a large enough buffer returns each one, for every key, associated data and hash |
| `Envelope.SplitJoin` | firmware/src/crypto_engine.c:891-910 | cutting at the first two separators undoes the printing |
| `Envelope.JoinSplit` | firmware/src/crypto_engine.c:891-910 | printing undoes the cutting |
| `Envelope.MaskedTwice` | firmware/src/atecc608a_driver.c:169-172 | the two XOR loops invert each other |
| `Basics.XorAt` | firmware/src/atecc608a_driver.c:117-119 | exclusive or sets exactly the bits in which two bytes differ |
| `Envelope.MaskIsKey` | firmware/src/atecc608a_driver.c:117-119 | masked and plain text differ by the key at every place, so a byte is left in clear exactly where the key byte is zero |
| `Envelope.MaskDeterminesKey` | firmware/src/atecc608a_driver.c:117-119 | one text under two keys looks the same exactly if the keys agree on the bytes used |
| `Envelope.EnvelopeLayout` | firmware/src/crypto_engine.c:323-416 | the fields of an envelope are the associated data, the hash of that data, the ciphertext and the key, and the ciphertext, which differs from the password by the key |
| `Envelope.AcceptedIsSealed` | firmware/src/crypto_engine.c:866-954 | whatever decrypts is, up to the case of its digits, the printed envelope of its own parts under a matching tag |
| `BrowserProtocol.ValidatedIff` | firmware/src/browser_protocol.c:101-164 | exactly which commands are valid |
| `Fat12.FatTable.Get` | firmware/src/usb_msc.c:93-104 | reads the entry from its two bytes by parity |
| `Fat12.FatTable.Set` | firmware/src/usb_msc.c:106-119 | rewrites the two bytes of an entry by parity |
| `Fat12.GetIsPacked` | firmware/src/usb_msc.c:93-104 | an entry reads as the little-endian number in nibbles 3c to 3c+2 of the table |
| `Fat12.SetChangesOwnNibbles` | firmware/src/usb_msc.c:106-119 | a write sets exactly these three nibbles to the low digits of the value and no other nibble |
| `Fat12.GetAfterSet` | firmware/src/usb_msc.c:93-119 | get after set gives the value modulo 4096, so the value itself if and only if it is below 4096 |
| `Fat12.GetElsewhere` | firmware/src/usb_msc.c:93-119 | every other cluster reads as before, neighbours sharing a byte included |
| `Fat12.ReservedEntry` | firmware/src/usb_msc.c:93-119 | cluster 0 reads as end of chain and is never written |

## Left out

- LockoutLaws.LockoutLaw: for runs of fewer than 2^61 ticks, attempt limit and wipe flag unchanged; `WrongGuessKeepsLawIff` is the exact condition for one guess, and `PenaltyWraps` shows what the 32-bit counters do far beyond that.
- StorageLaws.Recovery: for the checksum that was meant, and not for a write cut between its length word and its last payload word, because no checksum covers the payload; `ReadsLog` says exactly what is read in all those cases.
- StorageLaws.ReadsLog: for runs of writes; `HoldsRecords` is about runs with the corruption hook too.
- WearLaws.WearStaysEven: for the checksum that was meant; `WearStaysEvenIff` is the exact condition for both.
- StorageLaws.RunKeepsDiscipline: for fewer than 2^32-1 operations; `ReadBackIff` is the exact condition at the wrap.
- RateLimiterLaws.SlidingBound: for origins of at most 95 characters, all the engine ever passes; `RememberedIffShort` and `LongOriginNotLimited` say what happens to longer ones.
- EngineGuardLaws.EngineLockoutLaw: for fewer than 2^61 ticks; a new initialisation is an event of `LockoutLaws` and not of the engine's runs.
- EngineRateLaws.EngineRateBound: the sliding bound of `SlidingBound` says nothing more here, because the engine's clock moves at every command.
- EngineLaws.FreshIds: for fewer than 2^32-1 events; `NextIdFresh` is the exact condition for one id.
- FillLaws.SaveThenFill: about performed saves; `StorePerformsIff` says when a save is.
- NULL arguments, and the guards against them, throughout.
- HAL status codes: a failing flash call ends a write as a power cut does. The production build's `Error_Handler` and the readiness of the secure element are assumed away.
- Zeroing of local buffers after use, and all LED, USB, HID and timing code.
- Password fingerprints, the `app` field, strength warnings, settings without effect on these functions, and message texts beyond their kind and number.
- The AEAD writes a 32-byte digest into a 16-byte tag buffer (`firmware/src/atecc608a_driver.c:127`); the model takes the first sixteen bytes.
- How the associated data, generated passwords, hashes and common-password lists are computed.
- SHA-1, HMAC and TOTP codes: `firmware/src/totp.c:135-158` pads without the buffered tail, so they do not meet section 4 of RFC 3174.
- `init_fat_table`, sector mapping and SCSI commands of `usb_msc.c`; `settings_store.c`; secure boot, FIDO2 and USB sessions.
- `rate_limiter_tick` and `rate_limiter_ticks_remaining`, which the engine does not use, and the result encoder of the codec.
- Real time: the engine's clock counts commands and saves, as in the source.
