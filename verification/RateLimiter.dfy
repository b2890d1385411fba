/** rate_limiter.c: fixed windows for up to sixteen origins, kept in an array
    whose slots are taken in order and never released. */
module RateLimiting {
  import opened Basics
  import opened CStrings

  const MAX_ORIGINS: nat := 16
  const SLOT_ORIGIN_SIZE: nat := 96

  datatype Entry = Entry(used: bool, origin: string, windowStart: uint32, attempts: uint32)

  const FREE := Entry(false, "", 0, 0)

  const INITIAL: seq<Entry> := [FREE, FREE, FREE, FREE, FREE, FREE, FREE, FREE,
                                FREE, FREE, FREE, FREE, FREE, FREE, FREE, FREE]

  predicate Matches(e: Entry, origin: string) { e.used && StrnEq(e.origin, origin, SLOT_ORIGIN_SIZE) }

  /** The first slot at or after `i` holding `origin`, or the length if there is none. */
  function FirstMatch(es: seq<Entry>, origin: string, i: nat): (k: nat)
    requires i <= |es|
    ensures i <= k <= |es|
    ensures k < |es| ==> Matches(es[k], origin)
    ensures forall j :: i <= j < k ==> !Matches(es[j], origin)
    decreases |es| - i
  {
    if i == |es| || Matches(es[i], origin) then i else FirstMatch(es, origin, i + 1)
  }

  function FirstFree(es: seq<Entry>, i: nat): (k: nat)
    requires i <= |es|
    ensures i <= k <= |es|
    ensures k < |es| ==> !es[k].used
    ensures forall j :: i <= j < k ==> es[j].used
    decreases |es| - i
  {
    if i == |es| || !es[i].used then i else FirstFree(es, i + 1)
  }

  /** The slot that holds the origin, else the first free one. */
  function SlotFor(es: seq<Entry>, origin: string): Option<nat> {
    var k := FirstMatch(es, origin, 0);
    if k < |es| then Some(k)
    else
      var f := FirstFree(es, 0);
      if f < |es| then Some(f) else None
  }

  datatype Outcome = Outcome(entries: seq<Entry>, allowed: bool, retryAfter: uint32)

  /** Ticks since the window began, by the 32-bit clock. */
  function Elapsed(e: Entry, now: uint32): uint32 { Wrap32(now - e.windowStart) }

  /** The slot once opened for this origin and moved to the current window. */
  function Current(e: Entry, origin: string, now: uint32, window: uint32): Entry {
    if !e.used then Entry(true, Clip(origin, SLOT_ORIGIN_SIZE), now, 0)
    else if Elapsed(e, now) >= window then e.(windowStart := now, attempts := 0)
    else e
  }

  function Allow(es: seq<Entry>, origin: string, now: uint32, window: uint32, max: uint32): Outcome {
    var slot := SlotFor(es, origin);
    if window == 0 || max == 0 || slot.None? then Outcome(es, false, 0)
    else
      var i := slot.value;
      var e := Current(es[i], origin, now, window);
      if e.attempts >= max then Outcome(es[i := e], false, window - Elapsed(e, now))
      else Outcome(es[i := e.(attempts := e.attempts + 1)], true, 0)
  }

  class RateLimiter {
    const entries: array<Entry>

    ghost predicate Valid()
      reads this
    {
      entries.Length == MAX_ORIGINS
    }

    constructor ()
      ensures Valid() && fresh(entries)
      ensures entries[..] == INITIAL
    {
      entries := new Entry[MAX_ORIGINS](_ => FREE);
    }

    method Init()
      requires Valid()
      modifies entries
      ensures entries[..] == INITIAL
    {
      forall i | 0 <= i < entries.Length {
        entries[i] := FREE;
      }
    }

    method FindSlot(origin: string) returns (slot: Option<nat>)
      ensures slot == SlotFor(entries[..], origin)
    {
      slot := None;
      var i := 0;
      while i < entries.Length
        invariant 0 <= i <= entries.Length
        invariant FirstMatch(entries[..], origin, 0) == FirstMatch(entries[..], origin, i)
        invariant slot.None? ==> FirstFree(entries[..], 0) == FirstFree(entries[..], i)
        invariant slot.Some? ==> FirstFree(entries[..], 0) == slot.value < entries.Length
      {
        if !entries[i].used {
          if slot.None? {
            slot := Some(i);
          }
        } else if StrnEq(entries[i].origin, origin, SLOT_ORIGIN_SIZE) {
          return Some(i);
        }
        i := i + 1;
      }
    }

    method TryAllow(origin: string, now: uint32, window: uint32, max: uint32)
      returns (allowed: bool, retryAfter: uint32)
      modifies entries
      ensures Outcome(entries[..], allowed, retryAfter) == Allow(old(entries[..]), origin, now, window, max)
    {
      retryAfter := 0;
      if window == 0 || max == 0 {
        return false, 0;
      }
      var slot := FindSlot(origin);
      if slot.None? {
        return false, 0;
      }
      var i := slot.value;
      if !entries[i].used {
        entries[i] := Entry(true, Clip(origin, SLOT_ORIGIN_SIZE), now, 0);
      }
      if Wrap32(now - entries[i].windowStart) >= window {
        entries[i] := entries[i].(windowStart := now, attempts := 0);
      }
      if entries[i].attempts >= max {
        var elapsed := Wrap32(now - entries[i].windowStart);
        // The C code also covers elapsed >= window; the window has just been renewed.
        retryAfter := window - elapsed;
        return false, retryAfter;
      }
      entries[i] := entries[i].(attempts := entries[i].attempts + 1);
      return true, 0;
    }
  }
}
