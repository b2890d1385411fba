/** Selecting one credential after another. */
module SelectLaws {
  import opened Basics
  import opened Arithmetic
  import opened BrowserProtocol
  import opened Vaults
  import opened VaultLaws
  import opened Envelope
  import opened ActionEngine
  import opened EngineLaws
  import opened EngineLockLaws
  import opened EngineRateLaws
  import opened GateLaws

  lemma SelectPasses(e: Engine)
    ensures Passes(e, EMPTY_COMMAND.(kind := RequestSelectNext))
       <==> e.machine.SensitiveReady() && Admission(e, "global").allowed
  {
  }

  lemma HoldSelects(env: Env, e: Engine)
    requires e.pending.kind.PendingSelect?
    ensures var (e', out) := e.ConfirmHold(env);
      && (out.performed <==> e.pending.index < |e.vault| && e.vault[e.pending.index].valid)
      && (out.performed ==>
            && e'.machine.ctx.selected == Wrap32(e.pending.index)
            && e'.lastSelected == Some(e.vault[e.pending.index]))
      && e'.vault == e.vault
  {
  }

  /** The entry behind `at`, around at the end. */
  function Next(at: nat, size: nat): nat { if at + 1 >= size then 0 else at + 1 }

  lemma NextIsModular(at: nat, size: nat)
    requires at < size <= CAPACITY
    ensures Wrap32(at + 1) % size == Next(at, size)
  {
    if at + 1 < size {
      DivUnique(at + 1, size, 0, at + 1);
    } else {
      DivUnique(size, size, 1, 0);
    }
  }

  /** The selection stands at an entry of the vault. */
  ghost predicate Stands(e: Engine, cs: seq<Credential>, at: nat) {
    at < |cs| && e.vault == cs && e.machine.ctx.selected == at && e.lastSelected == Some(cs[at])
  }

  lemma HoldStands(env: Env, mid: Engine, at: nat)
    requires Keyed(mid.vault) && mid.vault != [] && mid.pending.kind.PendingSelect?
    requires at < |mid.vault| && mid.pending.index == Wrap32(at + 1) % |mid.vault|
    ensures mid.ConfirmHold(env).1.performed && Stands(mid.ConfirmHold(env).0, mid.vault, Next(at, |mid.vault|))
  {
    NextIsModular(at, |mid.vault|);
    HoldSelects(env, mid);
  }

  /** A one-call selection is performed if and only if the device is unlocked, neither
      wiped nor locked out, the limiter admits it and there is a credential. From a
      selection inside the vault it moves on to the next entry, around at the end. */
  lemma SelectPerformsIff(env: Env, e: Engine, aad: Aad)
    requires Keyed(e.vault) && (e.vault != [] ==> e.machine.ctx.selected < |e.vault|)
    ensures var (e', out) := e.DeviceSelect(env, aad);
      && (out.performed <==> e.machine.SensitiveReady() && Admission(e, "global").allowed && e.vault != [])
      && (out.performed ==> Stands(e', e.vault, Next(e.machine.ctx.selected, |e.vault|)))
  {
    var cmd := EMPTY_COMMAND.(kind := CommandType.RequestSelectNext);
    SelectPasses(e);
    SelectAllowedIff(env, e, cmd, aad);
    HandlePerformsNothing(env, e, cmd, aad);
    var (mid, out) := e.HandleCommand(env, cmd, aad);
    if out.allowed {
      HoldStands(env, mid, e.machine.ctx.selected);
    }
  }

  /** One performed selection. */
  ghost predicate Selects(env: Env, e: Engine, e': Engine, aad: Aad) {
    e.DeviceSelect(env, aad).1.performed && e' == e.DeviceSelect(env, aad).0
  }

  lemma SelectStands(env: Env, e: Engine, e': Engine, aad: Aad, cs: seq<Credential>, at: nat)
    requires Selects(env, e, e', aad)
    requires Keyed(cs) && e.vault == cs && e.machine.ctx.selected == at < |cs|
    ensures Stands(e', cs, Next(at, |cs|))
  {
    SelectPerformsIff(env, e, aad);
  }

  /** The entry `n` places on from `s`. */
  function Place(s: nat, n: nat, size: nat): nat { if n == 0 then s else Next(Place(s, n - 1, size), size) }

  lemma {:induction false} PlaceDecomposes(s: nat, n: nat, size: nat) returns (q: nat)
    requires s < size
    ensures s + n == q * size + Place(s, n, size) && Place(s, n, size) < size
    decreases n
  {
    if n == 0 {
      q := 0;
    } else {
      q := PlaceDecomposes(s, n - 1, size);
      if Place(s, n - 1, size) + 1 >= size {
        assert (q + 1) * size == q * size + size;
        q := q + 1;
      }
    }
  }

  lemma PlaceIsModular(s: nat, n: nat, size: nat)
    requires s < size
    ensures Place(s, n, size) == (s + n) % size
  {
    var q := PlaceDecomposes(s, n, size);
    DivUnique(s + n, size, q, Place(s, n, size));
  }

  lemma {:induction false} SelectionsStand(env: Env, states: seq<Engine>, aads: seq<Aad>, n: nat)
    requires |states| == |aads| + 1 && 0 < n <= |aads|
    requires forall i :: 0 <= i < |aads| ==> Selects(env, states[i], states[i + 1], aads[i])
    requires Keyed(states[0].vault) && states[0].machine.ctx.selected < |states[0].vault|
    ensures var cs, s := states[0].vault, states[0].machine.ctx.selected;
      Stands(states[n], cs, Place(s, n, |cs|))
    decreases n
  {
    var cs, s := states[0].vault, states[0].machine.ctx.selected;
    if n > 1 {
      SelectionsStand(env, states, aads, n - 1);
    }
    SelectStands(env, states[n - 1], states[n], aads[n - 1], cs, Place(s, n - 1, |cs|));
  }

  /** Performed selections in a row visit successive entries, around at the end: the
      `n`-th leaves the one `n` places on selected, and the vault as it was. */
  lemma SelectionsGoAround(env: Env, states: seq<Engine>, aads: seq<Aad>, n: nat)
    requires |states| == |aads| + 1 && 0 < n <= |aads|
    requires forall i :: 0 <= i < |aads| ==> Selects(env, states[i], states[i + 1], aads[i])
    requires Keyed(states[0].vault) && states[0].machine.ctx.selected < |states[0].vault|
    ensures var cs, s := states[0].vault, states[0].machine.ctx.selected;
      Stands(states[n], cs, (s + n) % |cs|)
  {
    SelectionsStand(env, states, aads, n);
    PlaceIsModular(states[0].machine.ctx.selected, n, |states[0].vault|);
  }
}
