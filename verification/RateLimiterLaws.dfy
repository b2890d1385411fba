/** What the limiter guarantees over whole runs: the sliding-interval bound, the
    exactness of the retry time, and the map it implements. */
module RateLimiterLaws {
  import opened Basics
  import opened RateLimiting

  /** A call at a true time; the firmware sees only its low 32 bits. */
  datatype Call = Call(origin: string, time: nat)

  function Serve(es: seq<Entry>, c: Call, window: uint32, max: uint32): Outcome {
    Allow(es, c.origin, Wrap32(c.time), window, max)
  }

  function Run(es: seq<Entry>, calls: seq<Call>, window: uint32, max: uint32): seq<Entry>
    decreases |calls|
  {
    if calls == [] then es
    else Serve(Run(es, calls[..|calls| - 1], window, max), calls[|calls| - 1], window, max).entries
  }

  predicate Ordered(calls: seq<Call>) {
    forall i, j :: 0 <= i < j < |calls| ==> calls[i].time <= calls[j].time
  }

  /** The outcome of the last call of a nonempty run. */
  function LastOutcome(es: seq<Entry>, calls: seq<Call>, window: uint32, max: uint32): Outcome
    requires calls != []
  {
    Serve(Run(es, calls[..|calls| - 1], window, max), calls[|calls| - 1], window, max)
  }

  /** How many calls of `origin` at a time in [lo, hi) were allowed. */
  function AllowedWithin(es: seq<Entry>, calls: seq<Call>, window: uint32, max: uint32,
                         origin: string, lo: int, hi: int): nat
    decreases |calls|
  {
    if calls == [] then 0
    else
      var c := calls[|calls| - 1];
      AllowedWithin(es, calls[..|calls| - 1], window, max, origin, lo, hi)
      + (if c.origin == origin && lo <= c.time < hi && LastOutcome(es, calls, window, max).allowed then 1 else 0)
  }

  // ---- slots are found again ------------------------------------------------

  /** Slots are taken in order, and stored origins fit their buffer. */
  ghost predicate Shape(es: seq<Entry>) {
    && |es| == MAX_ORIGINS
    && (forall i, j :: 0 <= i < j < |es| && es[j].used ==> es[i].used)
    && (forall i :: 0 <= i < |es| ==> |es[i].origin| < SLOT_ORIGIN_SIZE)
  }

  function Slot(es: seq<Entry>, origin: string): nat { FirstMatch(es, origin, 0) }

  lemma FirstMatchUnique(es: seq<Entry>, origin: string, i: nat, k: nat)
    requires i <= k < |es| && Matches(es[k], origin)
    requires forall j :: i <= j < k ==> !Matches(es[j], origin)
    ensures FirstMatch(es, origin, i) == k
  {
  }

  /** A call leaves the slot of every origin where it was, and touches it only if
      the call is for that origin. */
  lemma SlotStays(es: seq<Entry>, c: Call, window: uint32, max: uint32, origin: string)
    requires Shape(es)
    ensures var es' := Serve(es, c, window, max).entries;
      && Shape(es')
      && (Slot(es, origin) < |es| ==>
            Slot(es', origin) == Slot(es, origin) &&
            (c.origin != origin ==> es'[Slot(es, origin)] == es[Slot(es, origin)]))
  {
    var es' := Serve(es, c, window, max).entries;
    var k := Slot(es, origin);
    var slot := SlotFor(es, c.origin);
    if k < |es| && es' != es {
      var i := slot.value;
      assert forall j :: 0 <= j < |es| && j != i ==> es'[j] == es[j];
      assert es[i].used ==> es'[i].origin == es[i].origin;
      assert !es[i].used ==> k < i;
      assert c.origin != origin ==> i != k;
      FirstMatchUnique(es', origin, 0, k);
    }
  }

  lemma {:induction false} RunKeepsShape(es: seq<Entry>, calls: seq<Call>, window: uint32, max: uint32)
    requires Shape(es)
    ensures Shape(Run(es, calls, window, max))
    decreases |calls|
  {
    if calls != [] {
      RunKeepsShape(es, calls[..|calls| - 1], window, max);
      SlotStays(Run(es, calls[..|calls| - 1], window, max), calls[|calls| - 1], window, max, "");
    }
  }

  /** An allowed call is remembered exactly when its origin fits the slot: a longer
      one is stored cut short and never found again. */
  lemma RememberedIffShort(es: seq<Entry>, origin: string, now: uint32, window: uint32, max: uint32)
    requires Shape(es)
    requires Allow(es, origin, now, window, max).allowed
    ensures Slot(Allow(es, origin, now, window, max).entries, origin) < MAX_ORIGINS
       <==> |origin| < SLOT_ORIGIN_SIZE
  {
    var es' := Allow(es, origin, now, window, max).entries;
    var i := SlotFor(es, origin).value;
    assert es' == es[i := es'[i]] && es'[i].used;
    if |origin| < SLOT_ORIGIN_SIZE {
      assert Matches(es'[i], origin);
      assert Slot(es', origin) <= i;
    }
  }

  // ---- the sliding-interval bound ---------------------------------------------

  lemma {:induction false} AllowedWithinMonotone(calls: seq<Call>, window: uint32, max: uint32,
                                                 origin: string, lo: int, lo': int, hi: int)
    requires lo <= lo'
    ensures AllowedWithin(INITIAL, calls, window, max, origin, lo, hi)
         >= AllowedWithin(INITIAL, calls, window, max, origin, lo', hi)
    decreases |calls|
  {
    if calls != [] {
      AllowedWithinMonotone(calls[..|calls| - 1], window, max, origin, lo, lo', hi);
    }
  }

  lemma {:induction false} NothingAllowedLater(calls: seq<Call>, window: uint32, max: uint32,
                                               origin: string, lo: int, hi: int)
    requires forall i :: 0 <= i < |calls| ==> calls[i].time < lo
    ensures AllowedWithin(INITIAL, calls, window, max, origin, lo, hi) == 0
    decreases |calls|
  {
    if calls != [] {
      NothingAllowedLater(calls[..|calls| - 1], window, max, origin, lo, hi);
    }
  }

  /** The window of an origin after a run, with its true start time: at most its
      attempt count was allowed after the start, and at most `max` more in the
      stretch of one window length that ends there. */
  ghost predicate Tracked(calls: seq<Call>, window: uint32, max: uint32, origin: string, hi: int, start: nat) {
    var es := Run(INITIAL, calls, window, max);
    var k := Slot(es, origin);
    if k == |es| then AllowedWithin(INITIAL, calls, window, max, origin, 0 - window, hi) == 0
    else
      && calls != [] && start <= calls[|calls| - 1].time
      && Wrap32(start) == es[k].windowStart
      && es[k].attempts <= max
      && AllowedWithin(INITIAL, calls, window, max, origin, start + 1, hi) <= es[k].attempts
      && AllowedWithin(INITIAL, calls, window, max, origin, start - window + 1, hi) <= max + es[k].attempts
  }

  /** A window that looks expired by the 32-bit clock has really lasted its length. */
  lemma ExpiredIsExpired(start: nat, now: nat, window: uint32)
    requires start <= now && Wrap32(Wrap32(now) - Wrap32(start)) >= window
    ensures now >= start + window
  {
    assert Wrap32(Wrap32(now) - Wrap32(start)) == Wrap32(now - start);
  }

  /** One call, seen from an origin's own window: opened, left alone, counted, or renewed. */
  lemma WindowStep(es: seq<Entry>, c: Call, window: uint32, max: uint32, origin: string)
    requires Shape(es) && |origin| < SLOT_ORIGIN_SIZE
    ensures var o := Serve(es, c, window, max);
      var counted := if c.origin == origin && o.allowed then 1 else 0;
      var k, k' := Slot(es, origin), Slot(o.entries, origin);
      && |o.entries| == |es|
      && (k' == |es| ==> k == |es| && counted == 0)
      && (k == |es| && k' < |es| ==>
            o.entries[k'].windowStart == Wrap32(c.time) && counted <= o.entries[k'].attempts <= max)
      && (k < |es| ==> k' == k)
      && (k < |es| && es[k].attempts <= max ==>
            || (o.entries[k].windowStart == es[k].windowStart
                && o.entries[k].attempts == es[k].attempts + counted <= max)
            || (Wrap32(Wrap32(c.time) - es[k].windowStart) >= window > 0
                && o.entries[k].windowStart == Wrap32(c.time)
                && counted <= o.entries[k].attempts <= max))
  {
    SlotStays(es, c, window, max, origin);
    var o := Serve(es, c, window, max);
    var k, k' := Slot(es, origin), Slot(o.entries, origin);
    if k == |es| && k' < |es| {
      assert o.entries[k'] != es[k'];
    }
    if c.origin == origin && o.allowed {
      RememberedIffShort(es, origin, Wrap32(c.time), window, max);
    }
  }

  /** Was the last call of the run an allowed one of this origin? */
  function Counted(calls: seq<Call>, window: uint32, max: uint32, origin: string): nat
    requires calls != []
  {
    if calls[|calls| - 1].origin == origin && LastOutcome(INITIAL, calls, window, max).allowed then 1 else 0
  }

  /** The last call left the origin in its slot, with the window start it had. */
  ghost predicate SameWindow(calls: seq<Call>, window: uint32, max: uint32, origin: string)
    requires calls != []
  {
    var es, es' := Run(INITIAL, calls[..|calls| - 1], window, max), Run(INITIAL, calls, window, max);
    var k := Slot(es, origin);
    k < |es| == |es'| && Slot(es', origin) == k && es'[k].windowStart == es[k].windowStart
  }

  /** The last call was also counted in that window, if it counts. */
  ghost predicate Keeps(calls: seq<Call>, window: uint32, max: uint32, origin: string)
    requires calls != []
  {
    var es, es' := Run(INITIAL, calls[..|calls| - 1], window, max), Run(INITIAL, calls, window, max);
    var k := Slot(es, origin);
    && SameWindow(calls, window, max, origin)
    && es'[k].attempts == es[k].attempts + Counted(calls, window, max, origin) <= max
  }

  /** The last call began a window for the origin. */
  ghost predicate Begins(calls: seq<Call>, window: uint32, max: uint32, origin: string)
    requires calls != []
  {
    var es' := Run(INITIAL, calls, window, max);
    var k := Slot(es', origin);
    && k < |es'| && es'[k].windowStart == Wrap32(calls[|calls| - 1].time)
    && Counted(calls, window, max, origin) <= es'[k].attempts <= max
  }

  lemma KeptStep(calls: seq<Call>, window: uint32, max: uint32, origin: string, hi: int, start: nat)
    requires calls != [] && Ordered(calls)
    requires Tracked(calls[..|calls| - 1], window, max, origin, hi, start)
    requires Keeps(calls, window, max, origin)
    ensures Tracked(calls, window, max, origin, hi, start)
  {
    assert calls[..|calls| - 1] != [];
  }

  /** When a window begins, what was allowed before lies at or before its start. */
  lemma BegunStep(calls: seq<Call>, window: uint32, max: uint32, origin: string, hi: int, last: int)
    requires calls != [] && Ordered(calls) && last <= calls[|calls| - 1].time - window + 1
    requires AllowedWithin(INITIAL, calls[..|calls| - 1], window, max, origin, last, hi) <= max
    requires Begins(calls, window, max, origin)
    ensures Tracked(calls, window, max, origin, hi, calls[|calls| - 1].time)
  {
    var before, c := calls[..|calls| - 1], calls[|calls| - 1];
    NothingAllowedLater(before, window, max, origin, c.time + 1, hi);
    AllowedWithinMonotone(before, window, max, origin, last, c.time - window + 1, hi);
  }

  /** A window that is not kept has run its length, by the 32-bit clock. */
  lemma WindowRenewed(es: seq<Entry>, c: Call, window: uint32, max: uint32, origin: string, start: nat)
    requires Shape(es) && |origin| < SLOT_ORIGIN_SIZE && Slot(es, origin) < |es|
    requires var k := Slot(es, origin);
      es[k].attempts <= max && Wrap32(start) == es[k].windowStart && start <= c.time
    ensures var o, k := Serve(es, c, window, max), Slot(es, origin);
      var counted := if c.origin == origin && o.allowed then 1 else 0;
      && |o.entries| == |es| && Slot(o.entries, origin) == k
      && (if o.entries[k].windowStart == es[k].windowStart
          then o.entries[k].attempts == es[k].attempts + counted <= max
          else c.time >= start + window && o.entries[k].windowStart == Wrap32(c.time)
               && counted <= o.entries[k].attempts <= max)
  {
    WindowStep(es, c, window, max, origin);
    var k := Slot(es, origin);
    if Serve(es, c, window, max).entries[k].windowStart != es[k].windowStart {
      ExpiredIsExpired(start, c.time, window);
    }
  }

  lemma WindowCases(calls: seq<Call>, window: uint32, max: uint32, origin: string, hi: int, start: nat)
    requires calls != [] && Ordered(calls) && |origin| < SLOT_ORIGIN_SIZE
    requires Tracked(calls[..|calls| - 1], window, max, origin, hi, start)
    ensures var es := Run(INITIAL, calls[..|calls| - 1], window, max);
      || Keeps(calls, window, max, origin)
      || (Begins(calls, window, max, origin) && !SameWindow(calls, window, max, origin) &&
          (Slot(es, origin) < |es| ==> calls[|calls| - 1].time >= start + window))
      || (Slot(es, origin) == |es| == Slot(Run(INITIAL, calls, window, max), origin)
          && Counted(calls, window, max, origin) == 0 && |Run(INITIAL, calls, window, max)| == |es|)
  {
    var before, c := calls[..|calls| - 1], calls[|calls| - 1];
    var es := Run(INITIAL, before, window, max);
    RunKeepsShape(INITIAL, before, window, max);
    if Slot(es, origin) < |es| {
      assert before != [] && start <= before[|before| - 1].time <= c.time;
      WindowRenewed(es, c, window, max, origin, start);
    } else {
      WindowStep(es, c, window, max, origin);
    }
  }

  lemma TrackedStep(calls: seq<Call>, window: uint32, max: uint32, origin: string, hi: int, start: nat)
    returns (start': nat)
    requires calls != [] && Ordered(calls) && |origin| < SLOT_ORIGIN_SIZE
    requires Tracked(calls[..|calls| - 1], window, max, origin, hi, start)
    ensures Tracked(calls, window, max, origin, hi, start')
  {
    var es := Run(INITIAL, calls[..|calls| - 1], window, max);
    WindowCases(calls, window, max, origin, hi, start);
    start' := start;
    if Keeps(calls, window, max, origin) {
      KeptStep(calls, window, max, origin, hi, start);
    } else if Begins(calls, window, max, origin) {
      start' := calls[|calls| - 1].time;
      BegunStep(calls, window, max, origin, hi, if Slot(es, origin) == |es| then 0 - window else start + 1);
    }
  }

  lemma {:induction false} TrackedHolds(calls: seq<Call>, window: uint32, max: uint32, origin: string, hi: int)
    returns (start: nat)
    requires Ordered(calls) && |origin| < SLOT_ORIGIN_SIZE
    ensures Tracked(calls, window, max, origin, hi, start)
    decreases |calls|
  {
    if calls == [] {
      start := 0;
    } else {
      start := TrackedHolds(calls[..|calls| - 1], window, max, origin, hi);
      start := TrackedStep(calls, window, max, origin, hi, start);
    }
  }

  /** No interval of one window length sees more than twice `max` allowed calls of
      an origin, however the calls of all origins fall, and for clocks of any
      length: the 32-bit clock may wrap. */
  lemma {:induction false} SlidingBound(calls: seq<Call>, window: uint32, max: uint32, origin: string, lo: nat)
    requires Ordered(calls) && |origin| < SLOT_ORIGIN_SIZE
    ensures AllowedWithin(INITIAL, calls, window, max, origin, lo, lo + window) <= 2 * max
    decreases |calls|
  {
    if calls != [] {
      var before, c := calls[..|calls| - 1], calls[|calls| - 1];
      if c.time >= lo + window {
        SlidingBound(before, window, max, origin, lo);
      } else {
        var start := TrackedHolds(calls, window, max, origin, lo + window);
        var es := Run(INITIAL, calls, window, max);
        var from := if Slot(es, origin) == |es| then 0 - window else start - window + 1;
        AllowedWithinMonotone(calls, window, max, origin, from, lo, lo + window);
      }
    }
  }

  /** How many calls of the origin were allowed since its window last began: since its
      slot or the start recorded there last changed. */
  ghost function AllowedInWindow(calls: seq<Call>, window: uint32, max: uint32, origin: string): nat
    decreases |calls|
  {
    if calls == [] then 0
    else
      Counted(calls, window, max, origin)
      + (if SameWindow(calls, window, max, origin) then AllowedInWindow(calls[..|calls| - 1], window, max, origin)
         else 0)
  }

  /** The calls allowed since the window began are among the recorded attempts, and
      those never exceed `max`. */
  lemma {:induction false} WindowBound(calls: seq<Call>, window: uint32, max: uint32, origin: string)
    requires Ordered(calls) && |origin| < SLOT_ORIGIN_SIZE
    ensures var es := Run(INITIAL, calls, window, max);
      var k := Slot(es, origin);
      AllowedInWindow(calls, window, max, origin) <= (if k < |es| then es[k].attempts else 0) <= max
    decreases |calls|
  {
    if calls != [] {
      WindowBound(calls[..|calls| - 1], window, max, origin);
      var start := TrackedHolds(calls[..|calls| - 1], window, max, origin, 0);
      WindowCases(calls, window, max, origin, 0, start);
    }
  }

  // ---- the retry time is exact -------------------------------------------------

  /** A full window stays as it is under calls that fall inside it. */
  lemma {:induction false} StaysFull(es: seq<Entry>, later: seq<Call>, window: uint32, max: uint32, origin: string)
    requires Shape(es) && Slot(es, origin) < |es| && es[Slot(es, origin)].attempts >= max > 0
    requires forall c :: c in later ==> Elapsed(es[Slot(es, origin)], Wrap32(c.time)) < window
    ensures var es' := Run(es, later, window, max);
      && Shape(es') && |es'| == |es|
      && Slot(es', origin) == Slot(es, origin) && es'[Slot(es, origin)] == es[Slot(es, origin)]
    decreases |later|
  {
    if later != [] {
      var n := |later| - 1;
      assert later[n] in later;
      StaysFull(es, later[..n], window, max, origin);
      SlotStays(Run(es, later[..n], window, max), later[n], window, max, origin);
    }
  }

  /** When a denial reports a retry time, the window is full and that time is what is left of it. */
  lemma FullDenial(es: seq<Entry>, origin: string, now: uint32, window: uint32, max: uint32)
    requires Shape(es)
    requires var o := Allow(es, origin, now, window, max); !o.allowed && o.retryAfter > 0
    ensures var o := Allow(es, origin, now, window, max);
      var k := Slot(es, origin);
      && o.entries == es && k < |es| && es[k].attempts >= max > 0
      && o.retryAfter == window - Elapsed(es[k], now)
  {
  }

  /** A denial without a retry time is one that no waiting helps: nothing is ever
      allowed, or the table is full of other origins. A count-based one has one. */
  lemma NoRetryIff(es: seq<Entry>, origin: string, now: uint32, window: uint32, max: uint32)
    requires !Allow(es, origin, now, window, max).allowed
    ensures Allow(es, origin, now, window, max).retryAfter == 0
       <==> window == 0 || max == 0 || SlotFor(es, origin).None?
  {
  }

  lemma ElapsedLater(e: Entry, t: nat, d: nat)
    requires Elapsed(e, Wrap32(t)) + d <= UINT32_MAX
    ensures Elapsed(e, Wrap32(t + d)) == Elapsed(e, Wrap32(t)) + d
  {
    var q := (t + d) / 0x1_0000_0000 - t / 0x1_0000_0000;
    assert Wrap32(t + d) == Wrap32(t) + d - q * 0x1_0000_0000;
  }

  /** Calls of all origins between a denial at `t` and the retry time it reported. */
  ghost predicate Meanwhile(later: seq<Call>, t: nat, retryAfter: uint32) {
    forall c :: c in later ==> t <= c.time < t + retryAfter
  }

  lemma FullMeanwhile(es: seq<Entry>, origin: string, t: nat, later: seq<Call>, window: uint32, max: uint32)
    requires Shape(es) && Slot(es, origin) < |es| && es[Slot(es, origin)].attempts >= max > 0
    requires Elapsed(es[Slot(es, origin)], Wrap32(t)) < window
    requires Meanwhile(later, t, window - Elapsed(es[Slot(es, origin)], Wrap32(t)))
    ensures var es' := Run(es, later, window, max);
      && |es'| == |es| && Slot(es', origin) == Slot(es, origin)
      && es'[Slot(es, origin)] == es[Slot(es, origin)]
  {
    var k := Slot(es, origin);
    forall c | c in later
      ensures Elapsed(es[k], Wrap32(c.time)) < window
    {
      ElapsedLater(es[k], t, c.time - t);
    }
    StaysFull(es, later, window, max, origin);
  }

  /** A denial at `t` that reports a retry time means it: until then, whatever
      other calls come in between, that origin is refused ... */
  lemma RefusedUntilRetry(es: seq<Entry>, origin: string, t: nat, later: seq<Call>, t': nat,
                          window: uint32, max: uint32)
    requires Shape(es)
    requires var o := Serve(es, Call(origin, t), window, max);
      && !o.allowed && o.retryAfter > 0
      && Meanwhile(later, t, o.retryAfter) && t <= t' < t + o.retryAfter
    ensures var o := Serve(es, Call(origin, t), window, max);
      !Serve(Run(o.entries, later, window, max), Call(origin, t'), window, max).allowed
  {
    FullDenial(es, origin, Wrap32(t), window, max);
    FullMeanwhile(es, origin, t, later, window, max);
    ElapsedLater(es[Slot(es, origin)], t, t' - t);
  }

  /** ... and at the reported time, which is at most one window away, it is allowed. */
  lemma AllowedAtRetry(es: seq<Entry>, origin: string, t: nat, later: seq<Call>, window: uint32, max: uint32)
    requires Shape(es)
    requires var o := Serve(es, Call(origin, t), window, max);
      !o.allowed && o.retryAfter > 0 && Meanwhile(later, t, o.retryAfter)
    ensures var o := Serve(es, Call(origin, t), window, max);
      && o.retryAfter <= window
      && Serve(Run(o.entries, later, window, max), Call(origin, t + o.retryAfter), window, max).allowed
  {
    FullDenial(es, origin, Wrap32(t), window, max);
    FullMeanwhile(es, origin, t, later, window, max);
    ElapsedLater(es[Slot(es, origin)], t, window - Elapsed(es[Slot(es, origin)], Wrap32(t)));
  }

  // ---- the map it implements -----------------------------------------------------

  datatype Window = Window(start: uint32, attempts: uint32)

  /** No origin has two slots. */
  ghost predicate Distinct(es: seq<Entry>) {
    forall i, j :: 0 <= i < j < |es| && es[i].used && es[j].used ==> es[i].origin != es[j].origin
  }

  /** The windows the table stands for, by origin. */
  function Windows(es: seq<Entry>): map<string, Window>
    decreases |es|
  {
    if es == [] then map[]
    else
      var rest, e := Windows(es[..|es| - 1]), es[|es| - 1];
      if e.used then rest[e.origin := Window(e.windowStart, e.attempts)] else rest
  }

  /** The limiter over a map that holds at most sixteen origins. */
  function AllowOnMap(m: map<string, Window>, origin: string, now: uint32, window: uint32, max: uint32)
    : (map<string, Window>, bool, uint32)
  {
    if window == 0 || max == 0 || (origin !in m && |m| >= MAX_ORIGINS) then (m, false, 0)
    else if origin in m && Wrap32(now - m[origin].start) < window then
      var w := m[origin];
      if w.attempts >= max then (m, false, window - Wrap32(now - w.start))
      else (m[origin := w.(attempts := w.attempts + 1)], true, 0)
    else (m[origin := Window(now, 1)], true, 0)
  }

  lemma {:induction false} WindowsLookup(es: seq<Entry>, i: nat)
    requires Distinct(es) && i < |es| && es[i].used
    ensures es[i].origin in Windows(es)
    ensures Windows(es)[es[i].origin] == Window(es[i].windowStart, es[i].attempts)
    decreases |es|
  {
    if i < |es| - 1 {
      WindowsLookup(es[..|es| - 1], i);
    }
  }

  lemma {:induction false} WindowsHoldsOnly(es: seq<Entry>, origin: string) returns (i: nat)
    requires origin in Windows(es)
    ensures i < |es| && es[i].used && es[i].origin == origin
    decreases |es|
  {
    i := |es| - 1;
    if !(es[i].used && es[i].origin == origin) {
      i := WindowsHoldsOnly(es[..|es| - 1], origin);
    }
  }

  lemma {:induction false} WindowsSize(es: seq<Entry>, n: nat)
    requires Distinct(es) && n <= |es|
    requires forall i :: 0 <= i < |es| ==> (es[i].used <==> i < n)
    ensures |Windows(es)| == n
    decreases |es|
  {
    if es != [] {
      var e := es[|es| - 1];
      WindowsSize(es[..|es| - 1], if n == |es| then n - 1 else n);
      if e.used && e.origin in Windows(es[..|es| - 1]) {
        var i := WindowsHoldsOnly(es[..|es| - 1], e.origin);
        assert false;
      }
    }
  }

  /** Writing a slot changes the map at that slot's origin only. */
  lemma WindowsUpdate(es: seq<Entry>, i: nat, e: Entry)
    requires Distinct(es) && i < |es| && e.used && Distinct(es[i := e])
    requires es[i].used ==> es[i].origin == e.origin
    ensures Windows(es[i := e]) == Windows(es)[e.origin := Window(e.windowStart, e.attempts)]
  {
    var es', m := es[i := e], Windows(es)[e.origin := Window(e.windowStart, e.attempts)];
    WindowsLookup(es', i);
    forall o | o in Windows(es')
      ensures o in m && m[o] == Windows(es')[o]
    {
      var j := WindowsHoldsOnly(es', o);
      WindowsLookup(es', j);
      if j != i {
        WindowsLookup(es, j);
      }
    }
    forall o | o in m
      ensures o in Windows(es')
    {
      if o != e.origin {
        var j := WindowsHoldsOnly(es, o);
        WindowsLookup(es', j);
      }
    }
  }

  lemma SlotIsKey(es: seq<Entry>, origin: string)
    requires Shape(es) && Distinct(es) && |origin| < SLOT_ORIGIN_SIZE
    ensures var k := Slot(es, origin);
      && (origin in Windows(es) <==> k < |es|)
      && (k < |es| ==> es[k].origin == origin
                       && Windows(es)[origin] == Window(es[k].windowStart, es[k].attempts))
      && |Windows(es)| == FirstFree(es, 0)
  {
    var k := Slot(es, origin);
    if k < |es| {
      WindowsLookup(es, k);
    } else if origin in Windows(es) {
      var j := WindowsHoldsOnly(es, origin);
    }
    WindowsSize(es, FirstFree(es, 0));
  }

  lemma WriteKeepsDistinct(es: seq<Entry>, origin: string, i: nat, e: Entry)
    requires Shape(es) && Distinct(es) && SlotFor(es, origin) == Some(i) && i < |es|
    requires e.used && e.origin == origin && |origin| < SLOT_ORIGIN_SIZE
    ensures Distinct(es[i := e])
    ensures Windows(es[i := e]) == Windows(es)[origin := Window(e.windowStart, e.attempts)]
  {
    assert forall j :: 0 <= j < |es| && j != i && es[j].used ==> es[j].origin != origin;
    WindowsUpdate(es, i, e);
  }

  ghost predicate Refines(es: seq<Entry>, origin: string, now: uint32, window: uint32, max: uint32) {
    var o := Allow(es, origin, now, window, max);
    && Distinct(o.entries)
    && (Windows(o.entries), o.allowed, o.retryAfter) == AllowOnMap(Windows(es), origin, now, window, max)
  }

  lemma RefinesKnown(es: seq<Entry>, origin: string, now: uint32, window: uint32, max: uint32)
    requires Shape(es) && Distinct(es) && |origin| < SLOT_ORIGIN_SIZE
    requires window > 0 && max > 0 && Slot(es, origin) < |es|
    ensures Refines(es, origin, now, window, max)
  {
    SlotIsKey(es, origin);
    var k := Slot(es, origin);
    var e := Current(es[k], origin, now, window);
    if e.attempts >= max {
      assert es[k := e] == es;
    } else {
      WriteKeepsDistinct(es, origin, k, e.(attempts := e.attempts + 1));
    }
  }

  lemma RefinesNew(es: seq<Entry>, origin: string, now: uint32, window: uint32, max: uint32)
    requires Shape(es) && Distinct(es) && |origin| < SLOT_ORIGIN_SIZE
    requires window > 0 && max > 0 && Slot(es, origin) == |es|
    ensures Refines(es, origin, now, window, max)
  {
    SlotIsKey(es, origin);
    var i := FirstFree(es, 0);
    if i < |es| {
      WriteKeepsDistinct(es, origin, i, Entry(true, origin, now, 1));
    }
  }

  /** For origins that fit their slot the table refines the map: same verdict,
      same retry time, same windows afterwards, and never two slots for one origin. */
  lemma RefinesMap(es: seq<Entry>, origin: string, now: uint32, window: uint32, max: uint32)
    requires Shape(es) && Distinct(es) && |origin| < SLOT_ORIGIN_SIZE
    ensures var o := Allow(es, origin, now, window, max);
      && Shape(o.entries) && Distinct(o.entries)
      && (Windows(o.entries), o.allowed, o.retryAfter) == AllowOnMap(Windows(es), origin, now, window, max)
  {
    SlotStays(es, Call(origin, now), window, max, origin);
    if window > 0 && max > 0 {
      if Slot(es, origin) < |es| {
        RefinesKnown(es, origin, now, window, max);
      } else {
        RefinesNew(es, origin, now, window, max);
      }
    }
  }

  /** The map after a run of calls, and whether the call that follows is allowed. */
  function RunOnMap(m: map<string, Window>, calls: seq<Call>, window: uint32, max: uint32): map<string, Window>
    decreases |calls|
  {
    if calls == [] then m
    else
      var before, c := RunOnMap(m, calls[..|calls| - 1], window, max), calls[|calls| - 1];
      AllowOnMap(before, c.origin, Wrap32(c.time), window, max).0
  }

  lemma InitialIsEmpty()
    ensures Shape(INITIAL) && Distinct(INITIAL) && Windows(INITIAL) == map[]
  {
    WindowsSize(INITIAL, 0);
  }

  lemma AtMostSixteen(es: seq<Entry>)
    requires Shape(es) && Distinct(es)
    ensures |Windows(es)| <= MAX_ORIGINS
  {
    WindowsSize(es, FirstFree(es, 0));
  }

  lemma RefinesAlways(es: seq<Entry>, window: uint32, max: uint32)
    requires Shape(es) && Distinct(es)
    ensures forall c: Call :: |c.origin| < SLOT_ORIGIN_SIZE ==> Refines(es, c.origin, Wrap32(c.time), window, max)
  {
    forall c: Call | |c.origin| < SLOT_ORIGIN_SIZE
      ensures Refines(es, c.origin, Wrap32(c.time), window, max)
    {
      RefinesMap(es, c.origin, Wrap32(c.time), window, max);
    }
  }

  lemma {:induction false} RunFollowsMap(calls: seq<Call>, window: uint32, max: uint32)
    requires forall i :: 0 <= i < |calls| ==> |calls[i].origin| < SLOT_ORIGIN_SIZE
    ensures var es := Run(INITIAL, calls, window, max);
      Shape(es) && Distinct(es) && Windows(es) == RunOnMap(map[], calls, window, max)
    decreases |calls|
  {
    if calls != [] {
      var before, c := calls[..|calls| - 1], calls[|calls| - 1];
      RunFollowsMap(before, window, max);
      RefinesMap(Run(INITIAL, before, window, max), c.origin, Wrap32(c.time), window, max);
    } else {
      InitialIsEmpty();
    }
  }

  /** Over every run from the initial table whose origins fit: the table stands for the
      map of at most sixteen windows that the same run yields, holds no origin twice,
      and answers the next call as the map does. */
  lemma RunRefinesMap(calls: seq<Call>, window: uint32, max: uint32)
    requires forall i :: 0 <= i < |calls| ==> |calls[i].origin| < SLOT_ORIGIN_SIZE
    ensures var es, m := Run(INITIAL, calls, window, max), RunOnMap(map[], calls, window, max);
      && Distinct(es) && Windows(es) == m && |m| <= MAX_ORIGINS
      && forall c: Call :: |c.origin| < SLOT_ORIGIN_SIZE ==> Refines(es, c.origin, Wrap32(c.time), window, max)
  {
    var es := Run(INITIAL, calls, window, max);
    RunFollowsMap(calls, window, max);
    AtMostSixteen(es);
    RefinesAlways(es, window, max);
  }

  /** An origin has no slot to go to exactly when sixteen others have them all. */
  lemma NoSlotIff(es: seq<Entry>, origin: string)
    requires Shape(es) && Distinct(es) && |origin| < SLOT_ORIGIN_SIZE
    ensures SlotFor(es, origin).None? <==> |Windows(es)| == MAX_ORIGINS && origin !in Windows(es)
  {
    SlotIsKey(es, origin);
  }

  lemma NoSlotStays(es: seq<Entry>, c: Call, window: uint32, max: uint32, origin: string)
    requires SlotFor(es, origin).None?
    ensures SlotFor(Serve(es, c, window, max).entries, origin).None?
  {
    var es' := Serve(es, c, window, max).entries;
    assert forall j :: 0 <= j < |es| ==> es[j].used && !Matches(es[j], origin);
    assert |es'| == |es| && forall j :: 0 <= j < |es'| ==> es'[j].used && es'[j].origin == es[j].origin;
  }

  /** Slots are never released: once sixteen origins have them all, every other origin
      is refused for good, whatever calls come and however much time passes. */
  lemma {:induction false} SeventeenthRefused(es: seq<Entry>, calls: seq<Call>, window: uint32, max: uint32,
                                              origin: string)
    requires SlotFor(es, origin).None?
    ensures SlotFor(Run(es, calls, window, max), origin).None?
    ensures forall now: uint32 :: !Allow(Run(es, calls, window, max), origin, now, window, max).allowed
    decreases |calls|
  {
    if calls != [] {
      SeventeenthRefused(es, calls[..|calls| - 1], window, max, origin);
      NoSlotStays(Run(es, calls[..|calls| - 1], window, max), calls[|calls| - 1], window, max, origin);
    }
  }

  /** Calls of `n` origins, one each in the first tick. */
  function FirstCalls(n: nat): seq<Call> {
    if n == 0 then [] else FirstCalls(n - 1) + [Call(seq(n, _ => 'a'), 0)]
  }

  /** The first `n` slots are taken, by origins of one to `n` characters. */
  ghost predicate FilledUpTo(es: seq<Entry>, n: nat) {
    && |es| == MAX_ORIGINS
    && forall i :: 0 <= i < |es| ==> (es[i].used <==> i < n) && (i < n ==> |es[i].origin| == i + 1)
  }

  lemma RunThen(es: seq<Entry>, calls: seq<Call>, c: Call, window: uint32, max: uint32)
    ensures Run(es, calls + [c], window, max) == Serve(Run(es, calls, window, max), c, window, max).entries
  {
    assert (calls + [c])[..|calls|] == calls;
  }

  lemma {:induction false} FirstCallsFill(n: nat, window: uint32, max: uint32)
    requires n <= MAX_ORIGINS && window > 0 && max > 0
    ensures FilledUpTo(Run(INITIAL, FirstCalls(n), window, max), n)
    decreases n
  {
    if n > 0 {
      FirstCallsFill(n - 1, window, max);
      RunThen(INITIAL, FirstCalls(n - 1), Call(seq(n, _ => 'a'), 0), window, max);
      NextFills(Run(INITIAL, FirstCalls(n - 1), window, max), n - 1, seq(n, _ => 'a'), window, max);
    }
  }

  lemma NextFills(es: seq<Entry>, n: nat, origin: string, window: uint32, max: uint32)
    requires n < MAX_ORIGINS && FilledUpTo(es, n) && |origin| == n + 1 && window > 0 && max > 0
    ensures FilledUpTo(Serve(es, Call(origin, 0), window, max).entries, n + 1)
  {
    assert forall i :: 0 <= i < |es| ==> !Matches(es[i], origin);
    assert FirstMatch(es, origin, 0) == |es|;
    assert !es[n].used && FirstFree(es, 0) == n;
  }

  /** And sixteen origins are soon there: one call each in the first tick, and a longer
      origin has no slot to go to. */
  lemma SixteenOriginsFill(origin: string, window: uint32, max: uint32)
    requires |origin| > MAX_ORIGINS && window > 0 && max > 0
    ensures SlotFor(Run(INITIAL, FirstCalls(MAX_ORIGINS), window, max), origin).None?
  {
    FirstCallsFill(MAX_ORIGINS, window, max);
    var es := Run(INITIAL, FirstCalls(MAX_ORIGINS), window, max);
    assert forall i :: 0 <= i < |es| ==> !Matches(es[i], origin);
  }

  /** Longer origins are outside the refinement: with `max` at one, two calls of
      the same tick are both allowed, from separate slots. */
  lemma LongOriginNotLimited(origin: string, now: uint32, window: uint32)
    requires |origin| >= SLOT_ORIGIN_SIZE && window > 0
    ensures var first := Allow(INITIAL, origin, now, window, 1);
      first.allowed && Allow(first.entries, origin, now, window, 1).allowed
  {
    var first := Allow(INITIAL, origin, now, window, 1);
    assert SlotFor(INITIAL, origin) == Some(0);
    RememberedIffShort(INITIAL, origin, now, window, 1);
    assert FirstFree(first.entries, 0) == 1 && first.entries[1] == FREE;
  }
}
