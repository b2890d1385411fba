/** The vault as an insertion-ordered map, fresh ids, and the circular search. */
module VaultLaws {
  import opened Basics
  import opened Vaults

  // ---- an ordered map -------------------------------------------------------

  /** A record as the firmware builds it: live, with its key inside the buffers. */
  predicate Storable(c: Credential) {
    c.valid && |c.origin| < ENTRY_ORIGIN_SIZE && |c.username| < ENTRY_USERNAME_SIZE
  }

  /** Every entry live and no key stored twice. */
  ghost predicate Keyed(cs: seq<Credential>) {
    && |cs| <= CAPACITY
    && (forall i :: 0 <= i < |cs| ==> Storable(cs[i]))
    && (forall i, j :: 0 <= i < j < |cs| ==> KeyOf(cs[i]) != KeyOf(cs[j]))
  }

  function KeyOf(c: Credential): (string, string) { (c.origin, c.username) }

  /** The keys in the order they were first stored. */
  function Keys(cs: seq<Credential>): (ks: seq<(string, string)>)
    ensures |ks| == |cs|
    ensures forall i :: 0 <= i < |cs| ==> ks[i] == KeyOf(cs[i])
  {
    if cs == [] then [] else Keys(cs[..|cs| - 1]) + [KeyOf(cs[|cs| - 1])]
  }

  function Lookup(cs: seq<Credential>, key: (string, string)): Option<Credential> {
    var k := FirstForKey(cs, key.0, key.1, 0);
    if k < |cs| then Some(cs[k]) else None
  }

  lemma LookupFinds(cs: seq<Credential>, i: nat)
    requires Keyed(cs) && i < |cs|
    ensures FirstForKey(cs, cs[i].origin, cs[i].username, 0) == i
    ensures Lookup(cs, KeyOf(cs[i])) == Some(cs[i])
  {
    var k := FirstForKey(cs, cs[i].origin, cs[i].username, 0);
    assert HasKey(cs[i], cs[i].origin, cs[i].username);
    assert KeyOf(cs[k]) == KeyOf(cs[i]);
  }

  /** `upsert` keeps the order of insertion: it fails only on a new key in a full
      vault, and a new key goes to the end. */
  lemma UpsertKeepsOrder(cs: seq<Credential>, r: Credential)
    requires Keyed(cs) && Storable(r)
    ensures Keyed(Upserted(cs, r))
    ensures UpsertSucceeds(cs, r) <==> KeyOf(r) in Keys(cs) || |cs| < CAPACITY
    ensures Keys(Upserted(cs, r))
         == if UpsertSucceeds(cs, r) && KeyOf(r) !in Keys(cs) then Keys(cs) + [KeyOf(r)] else Keys(cs)
  {
    KeyStored(cs, r.origin, r.username);
    if UpsertSucceeds(cs, r) {
      UpsertKeepsKeyed(cs, r);
      KeysOfUpsert(cs, r);
    }
  }

  /** Nothing but a live record is ever stored. */
  lemma OnlyLiveStored(cs: seq<Credential>, r: Credential)
    requires forall i :: 0 <= i < |cs| ==> cs[i].valid
    ensures forall i :: 0 <= i < |Upserted(cs, r)| ==> Upserted(cs, r)[i].valid
    ensures !r.valid ==> !UpsertSucceeds(cs, r) && Upserted(cs, r) == cs
  {
  }

  /** What is found for an origin is live and of that origin, and the first such entry; and
      it is found if there is one. */
  lemma FindsFirstLive(cs: seq<Credential>, origin: string)
    requires |origin| < 96
    ensures var c := FindByOrigin(cs, origin);
      && (c.Some? <==> exists i :: 0 <= i < |cs| && cs[i].valid && cs[i].origin == origin)
      && (c.Some? ==> exists i :: 0 <= i < |cs| && cs[i] == c.value && c.value.valid && c.value.origin == origin
                                  && forall j :: 0 <= j < i ==> !cs[j].valid || cs[j].origin != origin)
  {
    var k := FirstForOrigin(cs, origin, 0);
    forall i | 0 <= i < |cs| && cs[i].valid && cs[i].origin == origin
      ensures HasOrigin(cs[i], origin)
    {
    }
  }

  lemma KeysOfUpsert(cs: seq<Credential>, r: Credential)
    requires Keyed(cs) && Storable(r) && UpsertSucceeds(cs, r)
    ensures Keys(Upserted(cs, r)) == if Exists(cs, r.origin, r.username) then Keys(cs) else Keys(cs) + [KeyOf(r)]
  {
    var k := FirstForKey(cs, r.origin, r.username, 0);
    if k < |cs| {
      assert Keys(cs[k := r]) == Keys(cs);
    } else {
      assert (cs + [r])[..|cs|] == cs;
    }
  }

  /** `upsert` is map update: afterwards the record is found under its key and
      every other key finds what it found before. */
  lemma UpsertIsMapUpdate(cs: seq<Credential>, r: Credential, key: (string, string))
    requires Keyed(cs) && Storable(r)
    ensures Lookup(Upserted(cs, r), key)
         == if UpsertSucceeds(cs, r) && key == KeyOf(r) then Some(r) else Lookup(cs, key)
  {
    if UpsertSucceeds(cs, r) {
      var k := FirstForKey(cs, r.origin, r.username, 0);
      UpsertKeepsKeyed(cs, r);
      if key == KeyOf(r) {
        LookupFinds(Upserted(cs, r), k);
      } else {
        LookupElsewhere(cs, Upserted(cs, r), k, key);
      }
    }
  }

  lemma KeyStored(cs: seq<Credential>, origin: string, username: string)
    requires Keyed(cs) && |origin| < ENTRY_ORIGIN_SIZE && |username| < ENTRY_USERNAME_SIZE
    ensures Exists(cs, origin, username) <==> (origin, username) in Keys(cs)
  {
    var k := FirstForKey(cs, origin, username, 0);
    if k < |cs| {
      assert Keys(cs)[k] == (origin, username);
    }
    forall i | 0 <= i < |cs| && Keys(cs)[i] == (origin, username)
      ensures k < |cs|
    {
      assert HasKey(cs[i], origin, username);
    }
  }

  lemma UpsertKeepsKeyed(cs: seq<Credential>, r: Credential)
    requires Keyed(cs) && Storable(r) && UpsertSucceeds(cs, r)
    ensures Keyed(Upserted(cs, r))
  {
    var k := FirstForKey(cs, r.origin, r.username, 0);
    if k < |cs| {
      assert KeyOf(cs[k]) == KeyOf(r);
    } else {
      assert forall i :: 0 <= i < |cs| ==> !HasKey(cs[i], r.origin, r.username);
    }
  }

  lemma LookupElsewhere(cs: seq<Credential>, cs': seq<Credential>, k: nat, key: (string, string))
    requires Keyed(cs) && Keyed(cs') && k <= |cs| <= |cs'| && k < |cs'|
    requires forall i :: 0 <= i < |cs| && i != k ==> cs'[i] == cs[i]
    requires k < |cs| ==> |cs'| == |cs| && KeyOf(cs[k]) == KeyOf(cs'[k])
    requires k == |cs| ==> |cs'| == |cs| + 1
    requires key != KeyOf(cs'[k])
    ensures Lookup(cs', key) == Lookup(cs, key)
  {
    var i, j := FirstForKey(cs, key.0, key.1, 0), FirstForKey(cs', key.0, key.1, 0);
    assert !HasKey(cs'[k], key.0, key.1) || |key.0| >= ENTRY_ORIGIN_SIZE || |key.1| >= ENTRY_USERNAME_SIZE;
  }

  // ---- fresh ids ------------------------------------------------------------

  lemma {:induction false} MaxIdIsMax(cs: seq<Credential>, n: nat)
    requires n <= |cs|
    ensures forall i :: 0 <= i < n && cs[i].valid ==> cs[i].id <= MaxId(cs, n)
    ensures MaxId(cs, n) == 0 || exists i :: 0 <= i < n && cs[i].valid && cs[i].id == MaxId(cs, n)
  {
    if n > 0 {
      MaxIdIsMax(cs, n - 1);
    }
  }

  /** The next id exceeds every id in use, except when the largest possible id is in use;
      then it is zero. */
  lemma NextIdFresh(cs: seq<Credential>)
    ensures (forall i :: 0 <= i < |cs| && cs[i].valid ==> cs[i].id < NextId(cs))
       <==> (forall i :: 0 <= i < |cs| && cs[i].valid ==> cs[i].id != UINT32_MAX)
    ensures (exists i :: 0 <= i < |cs| && cs[i].valid && cs[i].id == UINT32_MAX) ==> NextId(cs) == 0
  {
    MaxIdIsMax(cs, |cs|);
  }

  // ---- the circular search ----------------------------------------------------

  /** The positions below `n` that hold the origin, in order. */
  function Positions(cs: seq<Credential>, origin: string, n: nat): seq<nat>
    requires n <= |cs|
  {
    if n == 0 then []
    else Positions(cs, origin, n - 1) + (if HasOrigin(cs[n - 1], origin) then [n - 1] else [])
  }

  lemma {:induction false} PositionsPrefix(cs: seq<Credential>, origin: string, m: nat, n: nat)
    requires m <= n <= |cs|
    ensures Positions(cs, origin, m) <= Positions(cs, origin, n)
    decreases n
  {
    if m < n {
      PositionsPrefix(cs, origin, m, n - 1);
    }
  }

  /** The list holds every position of the origin once, at the place given by how
      many lie below it. */
  lemma {:induction false} RankOfPosition(cs: seq<Credential>, origin: string, p: nat, n: nat)
    requires p < n <= |cs| && HasOrigin(cs[p], origin)
    ensures var ps, q := Positions(cs, origin, n), |Positions(cs, origin, p)|;
      q < |ps| && ps[q] == p && |Positions(cs, origin, p + 1)| == q + 1
  {
    PositionsPrefix(cs, origin, p + 1, n);
  }

  lemma {:induction false} PositionAtRank(cs: seq<Credential>, origin: string, n: nat, q: nat)
    requires n <= |cs| && q < |Positions(cs, origin, n)|
    ensures var p := Positions(cs, origin, n)[q];
      p < n && HasOrigin(cs[p], origin) && |Positions(cs, origin, p)| == q
  {
    if q < |Positions(cs, origin, n - 1)| {
      PositionAtRank(cs, origin, n - 1, q);
    }
  }

  /** The number of positions below `i` is the place of the first one at or after `i`. */
  lemma {:induction false} FirstByRank(cs: seq<Credential>, origin: string, i: nat)
    requires i <= |cs|
    ensures var ps, r := Positions(cs, origin, |cs|), |Positions(cs, origin, i)|;
      && (FirstForOrigin(cs, origin, i) < |cs| <==> r < |ps|)
      && (r < |ps| ==> FirstForOrigin(cs, origin, i) == ps[r])
    decreases |cs| - i
  {
    if i < |cs| {
      FirstByRank(cs, origin, i + 1);
      if HasOrigin(cs[i], origin) {
        RankOfPosition(cs, origin, i, |cs|);
      }
    }
  }

  lemma {:induction false} ScanWrapped(cs: seq<Credential>, origin: string, start: nat, j: nat)
    requires j <= start < |cs|
    ensures var k := FirstForOrigin(cs, origin, j);
      ScanFrom(cs, origin, start, |cs| - start + j) == if k < start then Some(k) else None
    decreases start - j
  {
    if j < start {
      ScanWrapped(cs, origin, start, j + 1);
    }
  }

  lemma {:induction false} ScanAhead(cs: seq<Credential>, origin: string, start: nat, i: nat)
    requires start < |cs| && start + i <= |cs|
    ensures var k, first := FirstForOrigin(cs, origin, start + i), FirstForOrigin(cs, origin, 0);
      ScanFrom(cs, origin, start, i)
      == if k < |cs| then Some(k) else if first < start then Some(first) else None
    decreases |cs| - i
  {
    if start + i < |cs| {
      ScanAhead(cs, origin, start, i + 1);
    } else {
      ScanWrapped(cs, origin, start, 0);
    }
  }

  /** The place in the list of positions where a search from `start` lands. */
  function Landing(cs: seq<Credential>, origin: string, start: nat): nat {
    var r := if start < |cs| then |Positions(cs, origin, start)| else 0;
    if r < |Positions(cs, origin, |cs|)| then r else 0
  }

  lemma FindLands(cs: seq<Credential>, origin: string, start: nat)
    ensures var ps := Positions(cs, origin, |cs|);
      FindIndexed(cs, origin, start)
      == if Landing(cs, origin, start) < |ps| then Some(ps[Landing(cs, origin, start)]) else None
  {
    if |cs| > 0 {
      var from := if start < |cs| then start else 0;
      FirstByRank(cs, origin, from);
      FirstByRank(cs, origin, 0);
      ScanAhead(cs, origin, from, 0);
      assert Positions(cs, origin, 0) == [];
    }
  }

  /** Where a caller is after `steps` further searches, each from one past the last hit. */
  function Visit(cs: seq<Credential>, origin: string, start: nat, steps: nat): Option<nat> {
    if steps == 0 then FindIndexed(cs, origin, start)
    else
      var last := Visit(cs, origin, start, steps - 1);
      if last.None? then None else FindIndexed(cs, origin, last.value + 1)
  }

  /** Such a caller walks the list of positions in order and around. */
  lemma {:induction false} VisitsInOrder(cs: seq<Credential>, origin: string, start: nat, steps: nat)
    requires steps <= |Positions(cs, origin, |cs|)| && Positions(cs, origin, |cs|) != []
    ensures var ps := Positions(cs, origin, |cs|);
      Visit(cs, origin, start, steps) == Some(ps[Around(Landing(cs, origin, start) + steps, |ps|)])
  {
    FindLands(cs, origin, start);
    if steps > 0 {
      var ps := Positions(cs, origin, |cs|);
      VisitsInOrder(cs, origin, start, steps - 1);
      var q := Around(Landing(cs, origin, start) + steps - 1, |ps|);
      FindLands(cs, origin, ps[q] + 1);
      PositionAtRank(cs, origin, |cs|, q);
      RankOfPosition(cs, origin, ps[q], |cs|);
    }
  }

  /** From any start index, one cycle of searches hits every entry of the origin
      exactly once, and the next search is back at the first hit. */
  lemma VisitsEachOnce(cs: seq<Credential>, origin: string, start: nat, p: nat) returns (step: nat)
    requires p < |cs| && HasOrigin(cs[p], origin)
    ensures var n := |Positions(cs, origin, |cs|)|;
      && step < n
      && (forall s: nat :: s < n ==> (Visit(cs, origin, start, s) == Some(p) <==> s == step))
      && Visit(cs, origin, start, n) == Visit(cs, origin, start, 0)
  {
    var ps := Positions(cs, origin, |cs|);
    var q, r := |Positions(cs, origin, p)|, Landing(cs, origin, start);
    RankOfPosition(cs, origin, p, |cs|);
    step := if q >= r then q - r else q - r + |ps|;
    forall s: nat | s < |ps|
      ensures Visit(cs, origin, start, s) == Some(p) <==> s == step
    {
      VisitsInOrder(cs, origin, start, s);
      PositionAtRank(cs, origin, |cs|, Around(r + s, |ps|));
    }
    VisitsInOrder(cs, origin, start, |ps|);
    VisitsInOrder(cs, origin, start, 0);
  }

  /** Every hit is an entry of the origin. */
  lemma VisitsOnlyMatches(cs: seq<Credential>, origin: string, start: nat, steps: nat)
    ensures var v := Visit(cs, origin, start, steps);
      v.Some? ==> v.value < |cs| && HasOrigin(cs[v.value], origin)
  {
    var from := if steps == 0 then start
                else if Visit(cs, origin, start, steps - 1).Some? then Visit(cs, origin, start, steps - 1).value + 1
                else 0;
    FindLands(cs, origin, from);
    if Landing(cs, origin, from) < |Positions(cs, origin, |cs|)| {
      PositionAtRank(cs, origin, |cs|, Landing(cs, origin, from));
    }
  }
}
