/** The rate limiter as the action engine uses it: one call for each command that gets
    past the replay and wipe gates, at the engine's own clock. */
module EngineRateLaws {
  import opened Basics
  import opened BrowserProtocol
  import opened RateLimiting
  import opened ActionEngine
  import opened EngineLaws
  import opened Envelope
  import RateLimiterLaws

  type Call = RateLimiterLaws.Call

  /** What the engine counts a command under. */
  function LimitKey(cmd: Command): string { if cmd.origin != "" then cmd.origin else "global" }

  predicate ReachesLimiter(e: Engine, cmd: Command) {
    !(cmd.nonce != 0 && cmd.nonce <= e.lastNonce) && !e.machine.ctx.wiped
  }

  /** The origin an event puts to the limiter, if any. */
  function LimitedOrigin(e: Engine, ev: Event): Option<string> {
    var cmd := CommandOf(e, ev);
    if cmd.Some? && ReachesLimiter(e, cmd.value) then Some(LimitKey(cmd.value)) else None
  }

  function Admission(e: Engine, origin: string): Outcome {
    Allow(e.limiter, origin, e.clock, COMMAND_WINDOW, COMMANDS_PER_WINDOW)
  }

  /** No command passes the gates without being admitted. */
  lemma PassedIsAdmitted(e: Engine, cmd: Command)
    requires e.Gate(cmd).1.None?
    ensures ReachesLimiter(e, cmd) && Admission(e, LimitKey(cmd)).allowed
  {
  }

  lemma GateLimits(e: Engine, cmd: Command)
    ensures e.Gate(cmd).0.limiter == if ReachesLimiter(e, cmd) then Admission(e, LimitKey(cmd)).entries else e.limiter
  {
  }

  lemma RequestsKeepLimiter(env: Env, e: Engine, cmd: Command, aad: Aad)
    ensures e.RequestFill(env, cmd).0.limiter == e.limiter
    ensures e.RequestSave(env, cmd, aad).0.limiter == e.limiter
    ensures e.RequestGenerate(env, cmd, aad).0.limiter == e.limiter
    ensures e.RequestSelect().0.limiter == e.limiter
  {
  }

  lemma HandleLimits(env: Env, e: Engine, cmd: Command, aad: Aad)
    ensures var limiter := e.HandleCommand(env, cmd, aad).0.limiter;
      limiter == if ReachesLimiter(e, cmd) then Admission(e, LimitKey(cmd)).entries else e.limiter
  {
    GateLimits(e, cmd);
    RequestsKeepLimiter(env, e.Gate(cmd).0, cmd, aad);
  }

  lemma ConfirmKeepsLimiter(env: Env, e: Engine)
    ensures e.ConfirmHold(env).0.limiter == e.limiter
    ensures e.ConfirmTap(env).0.limiter == e.limiter
  {
  }

  lemma StepLimits(env: Env, e: Engine, ev: Event)
    ensures var origin := LimitedOrigin(e, ev);
      Step(env, e, ev).0.limiter == if origin.Some? then Admission(e, origin.value).entries else e.limiter
  {
    if CommandOf(e, ev).Some? {
      var cmd := CommandOf(e, ev).value;
      HandleLimits(env, e, cmd, ev.aad);
      ConfirmKeepsLimiter(env, e.HandleCommand(env, cmd, ev.aad).0);
    } else {
      ConfirmKeepsLimiter(env, e);
    }
  }

  /** A run with the limiter calls it makes. The time is the clock without its wrap. */
  datatype Trace = Trace(e: Engine, time: nat, calls: seq<Call>)

  function Extended(t: Trace, next: Engine, origin: Option<string>): Trace {
    Trace(next, t.time + Wrap32(next.clock - t.e.clock),
          if origin.Some? then t.calls + [RateLimiterLaws.Call(origin.value, t.time)] else t.calls)
  }

  function Traced(env: Env, t: Trace, ev: Event): Trace {
    Extended(t, Step(env, t.e, ev).0, LimitedOrigin(t.e, ev))
  }

  function TraceOf(env: Env, e: Engine, events: seq<Event>): Trace
    decreases |events|
  {
    if events == [] then Trace(e, e.clock, [])
    else Traced(env, TraceOf(env, e, events[..|events| - 1]), events[|events| - 1])
  }

  ghost predicate Faithful(t: Trace) {
    && Wrap32(t.time) == t.e.clock
    && t.e.limiter == RateLimiterLaws.Run(INITIAL, t.calls, COMMAND_WINDOW, COMMANDS_PER_WINDOW)
    && RateLimiterLaws.Ordered(t.calls)
    && forall i :: 0 <= i < |t.calls| ==> t.calls[i].time <= t.time
  }

  lemma ClockFollows(time: nat, clock: uint32, next: uint32)
    requires Wrap32(time) == clock
    ensures Wrap32(time + Wrap32(next - clock)) == next
  {
    var q := time / 0x1_0000_0000;
    if next >= clock {
      assert time + Wrap32(next - clock) == q * 0x1_0000_0000 + next;
    } else {
      assert time + Wrap32(next - clock) == (q + 1) * 0x1_0000_0000 + next;
    }
  }

  /** The limiter after one more call of a run. */
  lemma CallsExtend(calls: seq<Call>, c: Call)
    ensures RateLimiterLaws.Run(INITIAL, calls + [c], COMMAND_WINDOW, COMMANDS_PER_WINDOW)
         == RateLimiterLaws.Serve(RateLimiterLaws.Run(INITIAL, calls, COMMAND_WINDOW, COMMANDS_PER_WINDOW), c,
                                  COMMAND_WINDOW, COMMANDS_PER_WINDOW).entries
  {
    RateLimiterLaws.RunThen(INITIAL, calls, c, COMMAND_WINDOW, COMMANDS_PER_WINDOW);
  }

  lemma LimiterGoesOn(t: Trace, next: Engine, origin: string)
    requires Faithful(t) && next.limiter == Admission(t.e, origin).entries
    ensures next.limiter
         == RateLimiterLaws.Run(INITIAL, t.calls + [RateLimiterLaws.Call(origin, t.time)],
                                COMMAND_WINDOW, COMMANDS_PER_WINDOW)
  {
    CallsExtend(t.calls, RateLimiterLaws.Call(origin, t.time));
  }

  lemma OrderGoesOn(calls: seq<Call>, c: Call, later: nat)
    requires RateLimiterLaws.Ordered(calls) && c.time <= later
    requires forall i :: 0 <= i < |calls| ==> calls[i].time <= c.time
    ensures RateLimiterLaws.Ordered(calls + [c])
    ensures forall i :: 0 <= i < |calls + [c]| ==> (calls + [c])[i].time <= later
  {
  }

  /** What `Faithful` asks of a trace, one by one. */
  lemma FaithfulIf(t: Trace)
    requires Wrap32(t.time) == t.e.clock
    requires t.e.limiter == RateLimiterLaws.Run(INITIAL, t.calls, COMMAND_WINDOW, COMMANDS_PER_WINDOW)
    requires RateLimiterLaws.Ordered(t.calls) && forall i :: 0 <= i < |t.calls| ==> t.calls[i].time <= t.time
    ensures Faithful(t)
  {
  }

  /** A trace goes on faithfully by what an event does to limiter and clock. */
  lemma FaithfulGoesOn(t: Trace, next: Engine, origin: Option<string>)
    requires Faithful(t)
    requires next.limiter == if origin.Some? then Admission(t.e, origin.value).entries else t.e.limiter
    ensures Faithful(Extended(t, next, origin))
  {
    var time := t.time + Wrap32(next.clock - t.e.clock);
    ClockFollows(t.time, t.e.clock, next.clock);
    if origin.Some? {
      var c := RateLimiterLaws.Call(origin.value, t.time);
      LimiterGoesOn(t, next, origin.value);
      OrderGoesOn(t.calls, c, time);
      FaithfulIf(Trace(next, time, t.calls + [c]));
    } else {
      FaithfulIf(Trace(next, time, t.calls));
    }
  }

  lemma TracedIsFaithful(env: Env, t: Trace, ev: Event)
    requires Faithful(t)
    ensures Faithful(Traced(env, t, ev))
  {
    StepLimits(env, t.e, ev);
    FaithfulGoesOn(t, Step(env, t.e, ev).0, LimitedOrigin(t.e, ev));
  }

  lemma {:induction false} TraceIsFaithful(env: Env, e: Engine, events: seq<Event>)
    requires e.limiter == INITIAL
    ensures Faithful(TraceOf(env, e, events)) && TraceOf(env, e, events).e == Run(env, e, events)
    decreases |events|
  {
    if events != [] {
      TraceIsFaithful(env, e, events[..|events| - 1]);
      TracedIsFaithful(env, TraceOf(env, e, events[..|events| - 1]), events[|events| - 1]);
    }
  }

  /** Over every run of the engine: its limiter is the one of the calls the run makes, in
      the order of the engine's clock, and no more than thirty commands of an origin
      were admitted since the window of that origin last began. */
  lemma EngineRateBound(env: Env, e: Engine, events: seq<Event>, origin: string)
    requires e.limiter == INITIAL && |origin| < SLOT_ORIGIN_SIZE
    ensures var t := TraceOf(env, e, events);
      && t.e == Run(env, e, events) && RateLimiterLaws.Ordered(t.calls)
      && t.e.limiter == RateLimiterLaws.Run(INITIAL, t.calls, COMMAND_WINDOW, COMMANDS_PER_WINDOW)
      && RateLimiterLaws.AllowedInWindow(t.calls, COMMAND_WINDOW, COMMANDS_PER_WINDOW, origin) <= COMMANDS_PER_WINDOW
  {
    TraceIsFaithful(env, e, events);
    RateLimiterLaws.WindowBound(TraceOf(env, e, events).calls, COMMAND_WINDOW, COMMANDS_PER_WINDOW, origin);
  }

  lemma StepKeepsFull(env: Env, e: Engine, ev: Event, origin: string)
    requires SlotFor(e.limiter, origin).None?
    ensures SlotFor(Step(env, e, ev).0.limiter, origin).None?
  {
    StepLimits(env, e, ev);
    var other := LimitedOrigin(e, ev);
    if other.Some? {
      RateLimiterLaws.NoSlotStays(e.limiter, RateLimiterLaws.Call(other.value, e.clock),
                                  COMMAND_WINDOW, COMMANDS_PER_WINDOW, origin);
    }
  }

  lemma NoSlotNoPass(e: Engine, cmd: Command)
    requires SlotFor(e.limiter, LimitKey(cmd)).None?
    ensures e.Gate(cmd).1.Some?
  {
  }

  /** Once sixteen origins have all the slots, no command of another one ever passes the
      gates again, over every run. */
  lemma {:induction false} SeventeenthOriginRefused(env: Env, e: Engine, events: seq<Event>, cmd: Command)
    requires SlotFor(e.limiter, LimitKey(cmd)).None?
    ensures SlotFor(Run(env, e, events).limiter, LimitKey(cmd)).None?
    ensures Run(env, e, events).Gate(cmd).1.Some?
    decreases |events|
  {
    if events != [] {
      SeventeenthOriginRefused(env, e, events[..|events| - 1], cmd);
      StepKeepsFull(env, Run(env, e, events[..|events| - 1]), events[|events| - 1], LimitKey(cmd));
    }
    NoSlotNoPass(Run(env, e, events), cmd);
  }
}
