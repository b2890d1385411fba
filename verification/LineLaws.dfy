/** What a command line means: which tokens it is made of, and what they say. */
module LineLaws {
  import opened Basics
  import opened CStrings
  import opened BrowserProtocol
  import opened CommandCodec

  // ---- what a line means ----------------------------------------------------------------

  /** The tokens of a line: what stands between semicolons, if anything does. */
  function Tokens(s: string): seq<string>
    decreases |s|
  {
    if s == "" then []
    else if s[0] == ';' then Tokens(s[1..])
    else
      var k := IndexOf(s, ';', 0);
      [s[..k]] + Tokens(s[k..])
  }

  /** The key and the value of a token: what is before and behind its first equals sign. */
  function Key(token: string): string { token[..IndexOf(token, '=', 0)] }

  function Value(token: string): string
    requires '=' in token
  {
    token[IndexOf(token, '=', 0) + 1..]
  }

  predicate Readable(token: string, ulongMax: nat) {
    && '=' in token && Key(token) in {"type", "nonce", "origin", "username", "password"}
    && (Key(token) == "type" ==> ParseType(Value(token)).Some?)
    && (Key(token) == "nonce" ==> ParseNonce(Value(token), ulongMax).Some?)
  }

  /** What the last token with the key says. */
  function LastOf(tokens: seq<string>, key: string): Option<string> {
    if tokens == [] then None
    else if LastOf(tokens[1..], key).Some? then LastOf(tokens[1..], key)
    else if '=' in tokens[0] && Key(tokens[0]) == key then Some(Value(tokens[0]))
    else None
  }

  /** A text as its buffer holds it, or what was there before. */
  function Stored(value: Option<string>, cap: nat, before: string): string
    requires cap > 0
  {
    if value.Some? then Clip(value.value, cap) else before
  }

  /** The tokens say `p'`, to someone who knew `p`: each field is what the last token with
      its key says, or as it was. */
  ghost predicate Says(tokens: seq<string>, p: Partial, p': Partial, ulongMax: nat) {
    var kind, nonce := LastOf(tokens, "type"), LastOf(tokens, "nonce");
    && (if kind.Some? then p'.typed && ParseType(kind.value) == Some(p'.cmd.kind)
        else p'.typed == p.typed && p'.cmd.kind == p.cmd.kind)
    && (if nonce.Some? then ParseNonce(nonce.value, ulongMax) == Some(p'.cmd.nonce) else p'.cmd.nonce == p.cmd.nonce)
    && p'.cmd.origin == Stored(LastOf(tokens, "origin"), ORIGIN_SIZE, p.cmd.origin)
    && p'.cmd.username == Stored(LastOf(tokens, "username"), USERNAME_SIZE, p.cmd.username)
    && p'.cmd.password == Stored(LastOf(tokens, "password"), PASSWORD_SIZE, p.cmd.password)
  }

  lemma TokenSays(p: Partial, token: string, ulongMax: nat)
    ensures var read := WithToken(p, token, ulongMax);
      (read.Some? <==> Readable(token, ulongMax)) && (read.Some? ==> Says([token], p, read.value, ulongMax))
  {
    var eq := IndexOf(token, '=', 0);
    assert eq < |token| <==> '=' in token;
    assert [token][1..] == [];
  }

  lemma LastOfMore(token: string, rest: seq<string>, key: string)
    ensures LastOf([token] + rest, key)
         == if LastOf(rest, key).Some? then LastOf(rest, key) else LastOf([token], key)
  {
    assert ([token] + rest)[1..] == rest && [token][1..] == [];
  }

  lemma SaysMore(token: string, rest: seq<string>, p: Partial, q: Partial, r: Partial, ulongMax: nat)
    requires Says([token], p, q, ulongMax) && Says(rest, q, r, ulongMax)
    ensures Says([token] + rest, p, r, ulongMax)
  {
    LastOfMore(token, rest, "type");
    LastOfMore(token, rest, "nonce");
    LastOfMore(token, rest, "origin");
    LastOfMore(token, rest, "username");
    LastOfMore(token, rest, "password");
  }

  predicate AllReadable(tokens: seq<string>, ulongMax: nat) {
    forall i :: 0 <= i < |tokens| ==> Readable(tokens[i], ulongMax)
  }

  lemma AllReadableMore(token: string, rest: seq<string>, ulongMax: nat)
    ensures AllReadable([token] + rest, ulongMax) <==> Readable(token, ulongMax) && AllReadable(rest, ulongMax)
  {
    var tokens := [token] + rest;
    assert tokens[0] == token && forall i :: 0 <= i < |rest| ==> tokens[i + 1] == rest[i];
    if AllReadable(tokens, ulongMax) {
      forall i | 0 <= i < |rest|
        ensures Readable(rest[i], ulongMax)
      {
        assert Readable(tokens[i + 1], ulongMax);
      }
    }
  }

  lemma TokensMore(s: string)
    requires s != "" && s[0] != ';'
    ensures Tokens(s) == [s[..IndexOf(s, ';', 0)]] + Tokens(s[IndexOf(s, ';', 0)..])
  {
  }

  /** A line is read if and only if all its tokens can be, whatever their order, and then
      the last token of each key is what counts. */
  lemma {:induction false} FieldsSay(s: string, p: Partial, ulongMax: nat)
    ensures var read, tokens := Fields(s, p, ulongMax), Tokens(s);
      (read.Some? <==> AllReadable(tokens, ulongMax)) && (read.Some? ==> Says(tokens, p, read.value, ulongMax))
    decreases |s|, 2
  {
    if s != "" {
      if s[0] == ';' {
        FieldsSay(s[1..], p, ulongMax);
      } else {
        var k := IndexOf(s, ';', 0);
        FieldsSayMore(s[..k], s[k..], p, ulongMax);
        TokensMore(s);
      }
    }
  }

  lemma {:induction false} FieldsSayMore(token: string, rest: string, p: Partial, ulongMax: nat)
    ensures var next := WithToken(p, token, ulongMax);
      var read := if next.None? then None else Fields(rest, next.value, ulongMax);
      && (read.Some? <==> AllReadable([token] + Tokens(rest), ulongMax))
      && (read.Some? ==> Says([token] + Tokens(rest), p, read.value, ulongMax))
    decreases |rest|, 3
  {
    TokenSays(p, token, ulongMax);
    AllReadableMore(token, Tokens(rest), ulongMax);
    var next := WithToken(p, token, ulongMax);
    if next.Some? {
      FieldsSay(rest, next.value, ulongMax);
      if Fields(rest, next.value, ulongMax).Some? {
        SaysMore(token, Tokens(rest), p, next.value, Fields(rest, next.value, ulongMax).value, ulongMax);
      }
    }
  }

  /** The line a frame holds: up to the first NUL, without newlines at its end. */
  function LineOf(frame: string): string { Trim(frame[..IndexOf(frame, '\0', 0)]) }

  lemma DecodeIsFields(frame: string, ulongMax: nat)
    ensures var p := Fields(LineOf(frame), NOTHING_READ, ulongMax);
      Decode(frame, ulongMax)
      == if 0 < |frame| < 512 && p.Some? && p.value.typed then Some(p.value.cmd) else None
  {
  }

  /** Exactly which frames are accepted, and as what: 1 to 511 bytes whose line has a type
      and no token that cannot be read - no unknown key, none without an equals sign, no
      bad type or nonce. */
  lemma DecodeIff(frame: string, ulongMax: nat)
    ensures var tokens, cmd := Tokens(LineOf(frame)), Decode(frame, ulongMax);
      && (cmd.Some? <==>
            0 < |frame| < 512 && LastOf(tokens, "type").Some? && AllReadable(tokens, ulongMax))
      && (cmd.Some? ==> Says(tokens, NOTHING_READ, Partial(cmd.value, true), ulongMax))
  {
    var line := LineOf(frame);
    DecodeIsFields(frame, ulongMax);
    FieldsSay(line, NOTHING_READ, ulongMax);
    var p := Fields(line, NOTHING_READ, ulongMax);
    if p.Some? {
      assert p.value.typed <==> LastOf(Tokens(line), "type").Some?;
      assert p.value.typed ==> p.value == Partial(p.value.cmd, true);
    }
  }

  // ---- what a nonce may look like -----------------------------------------------------

  /** White space as C's `isspace` has it: blank, tab, newline, vertical tab, form feed and
      carriage return. */
  predicate White(c: char) { c in {' ', '\t', '\n', 11 as char, 12 as char, '\r'} }

  lemma {:induction false} SpacesSkipped(spaces: string, rest: string)
    requires (forall i :: 0 <= i < |spaces| ==> White(spaces[i])) && (rest == "" || !White(rest[0]))
    ensures SkipSpace(spaces + rest) == rest
    decreases |spaces|
  {
    if spaces == "" {
      assert spaces + rest == rest;
    } else {
      assert (spaces + rest)[1..] == spaces[1..] + rest;
      SpacesSkipped(spaces[1..], rest);
    }
  }

  lemma SignedDigits(sign: string, ds: string)
    requires sign in {"", "+", "-"} && ds != "" && AllDigits(ds)
    ensures var t := sign + ds;
      && !White(t[0]) && (t[0] == '-' <==> sign == "-") && (t[0] in {'+', '-'} <==> sign != "")
      && (if sign != "" then t[1..] == ds else t == ds)
  {
    assert IsDigit(ds[0]);
    assert sign != "" ==> (sign + ds)[0] == sign[0];
  }

  /** White space, at most one sign and digits: a minus sign negates modulo the range of
      `unsigned long`, and what is beyond that range counts as its largest number. */
  lemma NonceForms(spaces: string, sign: string, ds: string, ulongMax: nat)
    requires (forall i :: 0 <= i < |spaces| ==> White(spaces[i])) && sign in {"", "+", "-"}
    requires ds != "" && AllDigits(ds)
    ensures var n := DecimalValue(ds);
      var ul := if n > ulongMax then ulongMax else if sign == "-" && n > 0 then ulongMax + 1 - n else n;
      ParseNonce(spaces + (sign + ds), ulongMax) == if ul <= UINT32_MAX then Some(ul) else None
  {
    SignedDigits(sign, ds);
    SpacesSkipped(spaces, sign + ds);
  }

  lemma {:induction false} SkipLeaves(s: string) returns (spaces: string)
    ensures s == spaces + SkipSpace(s) && forall i :: 0 <= i < |spaces| ==> White(spaces[i])
    decreases |s|
  {
    if s != "" && White(s[0]) {
      var more := SkipLeaves(s[1..]);
      spaces := [s[0]] + more;
      assert s == [s[0]] + s[1..];
    } else {
      spaces := "";
    }
  }

  lemma NonceBehindSpace(value: string, ulongMax: nat)
    requires ParseNonce(value, ulongMax).Some?
    ensures var t := SkipSpace(value);
      var ds := if t != "" && t[0] in {'+', '-'} then t[1..] else t;
      t != "" && ds != "" && AllDigits(ds)
  {
  }

  /** Nothing else is a nonce. */
  lemma NonceOnlyForms(value: string, ulongMax: nat) returns (spaces: string, sign: string, ds: string)
    requires ParseNonce(value, ulongMax).Some?
    ensures value == spaces + (sign + ds) && sign in {"", "+", "-"} && ds != "" && AllDigits(ds)
    ensures forall i :: 0 <= i < |spaces| ==> White(spaces[i])
  {
    spaces := SkipLeaves(value);
    NonceBehindSpace(value, ulongMax);
    var t := SkipSpace(value);
    sign, ds := if t[0] in {'+', '-'} then [t[0]] else "", if t[0] in {'+', '-'} then t[1..] else t;
    assert t == sign + ds;
  }
}
