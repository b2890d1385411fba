/** vault.c: the credential array, filled in insertion order and keyed by
    origin and username. */
module Vaults {
  import opened Basics
  import opened CStrings

  const CAPACITY: nat := 32
  const ENTRY_ORIGIN_SIZE: nat := 96
  const ENTRY_USERNAME_SIZE: nat := 64

  datatype Credential = Credential(
    valid: bool,
    id: uint32,
    origin: string,
    username: string,
    ciphertext: string,
    createdAt: uint32,
    updatedAt: uint32)

  const NO_CREDENTIAL := Credential(false, 0, "", "", "", 0, 0)

  predicate HasOrigin(c: Credential, origin: string) {
    c.valid && StrnEq(c.origin, origin, ENTRY_ORIGIN_SIZE)
  }

  predicate HasKey(c: Credential, origin: string, username: string) {
    HasOrigin(c, origin) && StrnEq(c.username, username, ENTRY_USERNAME_SIZE)
  }

  /** The first entry at or after `i` for the origin, or the count if there is none. */
  function FirstForOrigin(cs: seq<Credential>, origin: string, i: nat): (k: nat)
    requires i <= |cs|
    ensures i <= k <= |cs|
    ensures k < |cs| ==> HasOrigin(cs[k], origin)
    ensures forall j :: i <= j < k ==> !HasOrigin(cs[j], origin)
    decreases |cs| - i
  {
    if i == |cs| || HasOrigin(cs[i], origin) then i else FirstForOrigin(cs, origin, i + 1)
  }

  function FirstForKey(cs: seq<Credential>, origin: string, username: string, i: nat): (k: nat)
    requires i <= |cs|
    ensures i <= k <= |cs|
    ensures k < |cs| ==> HasKey(cs[k], origin, username)
    ensures forall j :: i <= j < k ==> !HasKey(cs[j], origin, username)
    decreases |cs| - i
  {
    if i == |cs| || HasKey(cs[i], origin, username) then i else FirstForKey(cs, origin, username, i + 1)
  }

  function FindByOrigin(cs: seq<Credential>, origin: string): Option<Credential> {
    var k := FirstForOrigin(cs, origin, 0);
    if k < |cs| then Some(cs[k]) else None
  }

  predicate Exists(cs: seq<Credential>, origin: string, username: string) {
    FirstForKey(cs, origin, username, 0) < |cs|
  }

  predicate UpsertSucceeds(cs: seq<Credential>, r: Credential) {
    r.valid && (Exists(cs, r.origin, r.username) || |cs| < CAPACITY)
  }

  function Upserted(cs: seq<Credential>, r: Credential): seq<Credential> {
    if !UpsertSucceeds(cs, r) then cs
    else
      var k := FirstForKey(cs, r.origin, r.username, 0);
      if k < |cs| then cs[k := r] else cs + [r]
  }

  function MaxId(cs: seq<Credential>, n: nat): uint32
    requires n <= |cs|
  {
    if n == 0 then 0
    else
      var m := MaxId(cs, n - 1);
      if cs[n - 1].valid && cs[n - 1].id > m then cs[n - 1].id else m
  }

  function NextId(cs: seq<Credential>): uint32 {
    var m := MaxId(cs, |cs|);
    if m == UINT32_MAX then 0 else m + 1
  }

  /** An index at most one lap past the end, brought back into range. */
  function Around(i: nat, n: nat): (r: nat)
    requires i < 2 * n
    ensures r < n && r == i % n
  {
    if i < n then i
    else
      assert i % n == i - n by { OneLap(i - n, n); }
      i - n
  }

  lemma OneLap(r: nat, n: nat)
    requires r < n
    ensures (n + r) % n == r
  {
  }

  /** The circular search from step `i` on, having started at `start`. */
  function ScanFrom(cs: seq<Credential>, origin: string, start: nat, i: nat): Option<nat>
    requires start < |cs| && i <= |cs|
    decreases |cs| - i
  {
    if i == |cs| then None
    else if HasOrigin(cs[Around(start + i, |cs|)], origin) then Some(Around(start + i, |cs|))
    else ScanFrom(cs, origin, start, i + 1)
  }

  function FindIndexed(cs: seq<Credential>, origin: string, start: nat): (r: Option<nat>)
    ensures r.Some? ==> r.value < |cs|
  {
    if |cs| == 0 then None
    else
      var r := ScanFrom(cs, origin, if start >= |cs| then 0 else start, 0);
      ScanInBounds(cs, origin, if start >= |cs| then 0 else start, 0);
      r
  }

  lemma ScanInBounds(cs: seq<Credential>, origin: string, start: nat, i: nat)
    requires start < |cs| && i <= |cs|
    ensures ScanFrom(cs, origin, start, i).Some? ==> ScanFrom(cs, origin, start, i).value < |cs|
    decreases |cs| - i
  {
  }

  class Vault {
    const credentials: array<Credential>
    var count: nat

    ghost predicate Valid()
      reads this
    {
      credentials.Length == CAPACITY && count <= CAPACITY
    }

    function Contents(): seq<Credential>
      requires Valid()
      reads this, credentials
    {
      credentials[..count]
    }

    constructor ()
      ensures Valid() && fresh(credentials)
      ensures Contents() == []
    {
      credentials := new Credential[CAPACITY](_ => NO_CREDENTIAL);
      count := 0;
    }

    method FindEntryByOrigin(origin: string) returns (entry: Option<Credential>)
      requires Valid()
      ensures entry == FindByOrigin(Contents(), origin)
    {
      var i := 0;
      while i < count
        invariant 0 <= i <= count
        invariant FirstForOrigin(Contents(), origin, 0) == FirstForOrigin(Contents(), origin, i)
      {
        if credentials[i].valid && StrnEq(credentials[i].origin, origin, ENTRY_ORIGIN_SIZE) {
          return Some(credentials[i]);
        }
        i := i + 1;
      }
      return None;
    }

    method GetByIndex(index: nat) returns (entry: Option<Credential>)
      requires Valid()
      ensures entry == if index < |Contents()| && Contents()[index].valid then Some(Contents()[index]) else None
    {
      if index >= count || !credentials[index].valid {
        return None;
      }
      return Some(credentials[index]);
    }

    method Upsert(record: Credential) returns (success: bool)
      requires Valid()
      modifies this, credentials
      ensures Valid()
      ensures success == UpsertSucceeds(old(Contents()), record)
      ensures Contents() == Upserted(old(Contents()), record)
    {
      if !record.valid {
        return false;
      }
      ghost var cs := Contents();
      var i := 0;
      while i < count
        invariant 0 <= i <= count == |cs|
        invariant Contents() == cs
        invariant FirstForKey(cs, record.origin, record.username, 0)
               == FirstForKey(cs, record.origin, record.username, i)
      {
        if credentials[i].valid && StrnEq(credentials[i].origin, record.origin, ENTRY_ORIGIN_SIZE)
           && StrnEq(credentials[i].username, record.username, ENTRY_USERNAME_SIZE) {
          credentials[i] := record;
          return true;
        }
        i := i + 1;
      }
      if count >= credentials.Length {
        return false;
      }
      credentials[count] := record;
      count := count + 1;
      return true;
    }

    method HasEntry(origin: string, username: string) returns (found: bool)
      requires Valid()
      ensures found == Exists(Contents(), origin, username)
    {
      var i := 0;
      while i < count
        invariant 0 <= i <= count
        invariant FirstForKey(Contents(), origin, username, 0) == FirstForKey(Contents(), origin, username, i)
      {
        if credentials[i].valid && StrnEq(credentials[i].origin, origin, ENTRY_ORIGIN_SIZE)
           && StrnEq(credentials[i].username, username, ENTRY_USERNAME_SIZE) {
          return true;
        }
        i := i + 1;
      }
      return false;
    }

    method FreshId() returns (id: uint32)
      requires Valid()
      ensures id == NextId(Contents())
    {
      var maxId: uint32 := 0;
      var i := 0;
      while i < count
        invariant 0 <= i <= count
        invariant maxId == MaxId(Contents(), i)
      {
        if credentials[i].valid && credentials[i].id > maxId {
          maxId := credentials[i].id;
        }
        i := i + 1;
      }
      return if maxId == UINT32_MAX then 0 else maxId + 1;
    }

    method FindByOriginIndexed(origin: string, startIndex: nat) returns (index: Option<nat>)
      requires Valid()
      ensures index == FindIndexed(Contents(), origin, startIndex)
    {
      if count == 0 {
        return None;
      }
      var start := if startIndex >= count then 0 else startIndex;
      var i := 0;
      while i < count
        invariant 0 <= i <= count
        invariant ScanFrom(Contents(), origin, start, 0) == ScanFrom(Contents(), origin, start, i)
      {
        var idx := (start + i) % count;
        assert idx == Around(start + i, count);
        if credentials[idx].valid && StrnEq(credentials[idx].origin, origin, ENTRY_ORIGIN_SIZE) {
          return Some(idx);
        }
        i := i + 1;
      }
      return None;
    }
  }
}
