/** command_codec.c: commands printed as `key=value` fields, and the tokenizer
    that takes such a line apart in its own buffer. */
module CommandCodec {
  import opened Basics
  import opened CStrings
  import opened BrowserProtocol

  const MAX_FRAME: nat := 512

  // ---- decoding -----------------------------------------------------------------

  predicate IsNewline(c: char) { c == '\n' || c == '\r' }

  function Trim(s: string): (r: string)
    ensures r <= s
    decreases |s|
  {
    if s != "" && IsNewline(s[|s| - 1]) then Trim(s[..|s| - 1]) else s
  }

  function TypeName(kind: CommandType): string {
    match kind
    case NoCommand => "NONE"
    case RequestFill => "REQUEST_FILL"
    case RequestSave => "REQUEST_SAVE"
    case RequestGenerate => "REQUEST_GENERATE"
    case RequestSelectNext => "REQUEST_SELECT_NEXT"
  }

  /** All four names are compared up to sixteen characters, so the two long ones
      are recognised by their beginning. */
  function ParseType(value: string): Option<CommandType> {
    if StrnEq(value, "REQUEST_FILL", 16) then Some(RequestFill)
    else if StrnEq(value, "REQUEST_SAVE", 16) then Some(RequestSave)
    else if StrnEq(value, "REQUEST_GENERATE", 16) then Some(RequestGenerate)
    else if StrnEq(value, "REQUEST_SELECT_NEXT", 16) then Some(RequestSelectNext)
    else None
  }

  predicate IsSpace(c: char) { c == ' ' || '\t' <= c <= '\r' }

  function SkipSpace(s: string): string {
    if s != "" && IsSpace(s[0]) then SkipSpace(s[1..]) else s
  }

  function DecimalValue(s: string): nat
    requires AllDigits(s)
  {
    if s == "" then 0
    else
      assert IsDigit(s[|s| - 1]);
      DecimalValue(s[..|s| - 1]) * 10 + (s[|s| - 1] as int - '0' as int)
  }

  /** `strtoul` in base ten and the checks around it: leading white space and one
      sign are taken, all the rest must be digits. A value beyond the largest
      `unsigned long` is cut to it, and a minus sign negates modulo its range. */
  function ParseNonce(value: string, ulongMax: nat): Option<uint32> {
    var t := SkipSpace(value);
    var negative := t != "" && t[0] == '-';
    var ds := if t != "" && t[0] in {'+', '-'} then t[1..] else t;
    if ds == "" || !AllDigits(ds) then None
    else
      var n := DecimalValue(ds);
      var ul := if n > ulongMax then ulongMax else if negative && n > 0 then ulongMax + 1 - n else n;
      if ul > UINT32_MAX then None else Some(ul)
  }

  /** The command read so far, and whether its type has been seen. */
  datatype Partial = Partial(cmd: Command, typed: bool)

  const NOTHING_READ := Partial(EMPTY_COMMAND, false)

  /** One field, later ones overwriting earlier ones. */
  function WithField(p: Partial, key: string, value: string, ulongMax: nat): Option<Partial> {
    match key
    case "type" =>
      var kind := ParseType(value);
      if kind.None? then None else Some(Partial(p.cmd.(kind := kind.value), true))
    case "nonce" =>
      var nonce := ParseNonce(value, ulongMax);
      if nonce.None? then None else Some(p.(cmd := p.cmd.(nonce := nonce.value)))
    case "origin" => Some(p.(cmd := p.cmd.(origin := Clip(value, ORIGIN_SIZE))))
    case "username" => Some(p.(cmd := p.cmd.(username := Clip(value, USERNAME_SIZE))))
    case "password" => Some(p.(cmd := p.cmd.(password := Clip(value, PASSWORD_SIZE))))
    case _ => None
  }

  function WithToken(p: Partial, token: string, ulongMax: nat): Option<Partial> {
    var eq := IndexOf(token, '=', 0);
    if eq == |token| then None else WithField(p, token[..eq], token[eq + 1..], ulongMax)
  }

  /** The fields of a line: tokens between semicolons, empty ones skipped. */
  function Fields(s: string, p: Partial, ulongMax: nat): Option<Partial>
    decreases |s|
  {
    if s == "" then Some(p)
    else if s[0] == ';' then Fields(s[1..], p, ulongMax)
    else
      var k := IndexOf(s, ';', 0);
      var next := WithToken(p, s[..k], ulongMax);
      if next.None? then None else Fields(s[k..], next.value, ulongMax)
  }

  function DecodeLine(line: string, ulongMax: nat): Option<Command> {
    if |line| >= MAX_FRAME then None
    else
      var p := Fields(Trim(line), NOTHING_READ, ulongMax);
      if p.None? || !p.value.typed then None else Some(p.value.cmd)
  }

  /** A frame of bytes is read up to its first NUL. */
  function Decode(frame: string, ulongMax: nat): Option<Command> {
    if |frame| == 0 || |frame| >= MAX_FRAME then None
    else DecodeLine(frame[..IndexOf(frame, '\0', 0)], ulongMax)
  }

  // ---- encoding -----------------------------------------------------------------

  function Decimal(n: nat): string {
    if n < 10 then ["0123456789"[n]] else Decimal(n / 10) + ["0123456789"[n % 10]]
  }

  /** Everything before the value of the password field. */
  function FrameHead(cmd: Command): string {
    var kind, nonce := "type=" + TypeName(cmd.kind) + ";", "nonce=" + Decimal(cmd.nonce) + ";";
    var origin, username := "origin=" + cmd.origin + ";", "username=" + cmd.username + ";";
    kind + nonce + origin + username + "password="
  }

  function Frame(cmd: Command): string { FrameHead(cmd) + cmd.password }

  function Encode(cmd: Command, outLen: nat): Option<string> {
    if outLen == 0 || cmd.kind.NoCommand? || |Frame(cmd)| >= outLen then None else Some(Frame(cmd))
  }

  // ---- the buffers ----------------------------------------------------------------

  method TrimNewline(buf: array<char>, length: nat) returns (trimmed: nat)
    requires length < buf.Length
    modifies buf
    ensures trimmed <= length && buf[..trimmed] == Trim(old(buf[..length]))
    ensures forall i :: trimmed <= i < length ==> buf[i] == '\0'
    ensures forall i :: length <= i < buf.Length ==> buf[i] == old(buf[i])
  {
    trimmed := length;
    while trimmed > 0 && IsNewline(buf[trimmed - 1])
      invariant 0 <= trimmed <= length
      invariant buf[..trimmed] == old(buf[..trimmed])
      invariant Trim(buf[..trimmed]) == Trim(old(buf[..length]))
      invariant forall i :: trimmed <= i < length ==> buf[i] == '\0'
      invariant forall i :: length <= i < buf.Length ==> buf[i] == old(buf[i])
    {
      ghost var before := buf[..trimmed];
      buf[trimmed - 1] := '\0';
      trimmed := trimmed - 1;
      assert buf[..trimmed] == before[..trimmed];
    }
  }

  /** `strtok(…, ";")` from a saved position: the next token's bounds, its end
      overwritten with NUL, and the position to go on from. */
  method NextToken(buf: array<char>, from: nat, length: nat) returns (start: nat, end: nat, next: nat)
    requires from <= length < buf.Length && buf[length] == '\0'
    requires forall i :: from <= i < length ==> buf[i] != '\0'
    modifies buf
    ensures from <= start <= end <= next <= length
    ensures start == end ==> start == length
    ensures forall i :: from <= i < start ==> old(buf[i]) == ';'
    ensures forall i :: start <= i < end ==> buf[i] == old(buf[i]) != ';'
    ensures end < length ==> old(buf[end]) == ';' && next == end + 1
    ensures end == length ==> next == length
    ensures buf[end] == '\0'
    ensures forall i :: next <= i < buf.Length ==> buf[i] == old(buf[i])
  {
    start := from;
    while buf[start] == ';'
      invariant from <= start <= length
      invariant forall i :: from <= i < start ==> buf[i] == ';'
      decreases length - start
    {
      start := start + 1;
    }
    end := start;
    while buf[end] != '\0' && buf[end] != ';'
      invariant start <= end <= length
      invariant forall i :: start <= i < end ==> buf[i] != ';'
      decreases length - end
    {
      end := end + 1;
    }
    next := end;
    if buf[end] == ';' {
      buf[end] := '\0';
      next := end + 1;
    }
  }

  /** Dropping leading separators, or a whole token with the separator behind it,
      is what one call of the tokenizer does to the fields still to read. */
  lemma {:induction false} FieldsSkip(s: string, pos: nat, start: nat, p: Partial, ulongMax: nat)
    requires pos <= start <= |s| && forall i :: pos <= i < start ==> s[i] == ';'
    ensures Fields(s[pos..], p, ulongMax) == Fields(s[start..], p, ulongMax)
    decreases start - pos
  {
    if pos < start {
      assert s[pos..][1..] == s[pos + 1..];
      FieldsSkip(s, pos + 1, start, p, ulongMax);
    }
  }

  lemma FieldsToken(s: string, start: nat, end: nat, p: Partial, ulongMax: nat)
    requires start < end <= |s| && (forall i :: start <= i < end ==> s[i] != ';') && (end < |s| ==> s[end] == ';')
    ensures var read := WithToken(p, s[start..end], ulongMax);
      Fields(s[start..], p, ulongMax)
      == if read.None? then None else Fields(s[end..], read.value, ulongMax)
  {
    var rest, k := s[start..], end - start;
    assert forall i :: 0 <= i < k ==> rest[i] == s[start + i];
    assert IndexOf(rest, ';', 0) == k;
    assert rest[..k] == s[start..end] && rest[k..] == s[end..];
  }

  /** One round of the tokenizer, seen from the fields still to read. */
  lemma TokenRound(s: string, pos: nat, start: nat, end: nat, next: nat, p: Partial, ulongMax: nat)
    requires pos <= start <= end <= next <= |s| && (start == end ==> start == |s|)
    requires forall i :: pos <= i < start ==> s[i] == ';'
    requires forall i :: start <= i < end ==> s[i] != ';'
    requires if end < |s| then s[end] == ';' && next == end + 1 else next == end
    ensures Fields(s[pos..], p, ulongMax)
         == if start == end then Some(p)
            else
              var read := WithToken(p, s[start..end], ulongMax);
              if read.None? then None else Fields(s[next..], read.value, ulongMax)
  {
    FieldsSkip(s, pos, start, p, ulongMax);
    if start < end {
      FieldsToken(s, start, end, p, ulongMax);
      var read := WithToken(p, s[start..end], ulongMax);
      if read.Some? {
        FieldsSkip(s, end, next, read.value, ulongMax);
      }
    }
  }

  method DecodeLineInPlace(line: string, ulongMax: nat) returns (cmd: Option<Command>)
    requires '\0' !in line
    ensures cmd == DecodeLine(line, ulongMax)
  {
    if |line| >= MAX_FRAME {
      return None;
    }
    var buf := new char[MAX_FRAME];
    PrintInto(line, buf);
    var length := TrimNewline(buf, |line|);
    var p := ReadTokens(buf, length, ulongMax);
    return if p.Some? && p.value.typed then Some(p.value.cmd) else None;
  }

  method ReadTokens(buf: array<char>, length: nat, ulongMax: nat) returns (read: Option<Partial>)
    requires length < buf.Length && buf[length] == '\0' && '\0' !in buf[..length]
    modifies buf
    ensures read == Fields(old(buf[..length]), NOTHING_READ, ulongMax)
  {
    ghost var s := buf[..length];
    var p, pos := NOTHING_READ, 0;
    assert s[0..] == s;
    while true
      invariant 0 <= pos <= length && buf[length] == '\0'
      invariant forall i :: pos <= i < length ==> buf[i] == s[i]
      invariant Fields(s, NOTHING_READ, ulongMax) == Fields(s[pos..], p, ulongMax)
      decreases length - pos
    {
      var start, end, next := NextToken(buf, pos, length);
      TokenRound(s, pos, start, end, next, p, ulongMax);
      if start == end {
        return Some(p);
      }
      assert buf[start..end] == s[start..end];
      label Tokenized:
      read := ReadToken(buf, start, end, p, ulongMax);
      if read.None? {
        return None;
      }
      forall i | next <= i <= length
        ensures buf[i] == old@Tokenized(buf[i])
      {
        assert buf[end..][i - end] == old@Tokenized(buf[end..])[i - end];
      }
      p, pos := read.value, next;
    }
  }

  /** One token: the equals sign becomes a NUL and the two halves are key and value. */
  method ReadToken(buf: array<char>, start: nat, end: nat, p: Partial, ulongMax: nat) returns (next: Option<Partial>)
    requires start < end < buf.Length && buf[end] == '\0'
    modifies buf
    ensures next == WithToken(p, old(buf[start..end]), ulongMax)
    ensures buf[end..] == old(buf[end..])
  {
    var token := buf[start..end];
    var eq := FindChar(token, '=', 0);
    if eq == |token| {
      return None;
    }
    buf[start + eq] := '\0';
    var key, value := buf[start..start + eq], buf[start + eq + 1..end];
    KeyAndValue(token, eq, key, value);
    next := WithField(p, key, value, ulongMax);
  }

  lemma KeyAndValue(token: string, eq: nat, key: string, value: string)
    requires eq < |token| && |key| == eq && |value| == |token| - eq - 1
    requires forall i :: 0 <= i < eq ==> key[i] == token[i]
    requires forall i :: 0 <= i < |value| ==> value[i] == token[eq + 1 + i]
    ensures key == token[..eq] && value == token[eq + 1..]
  {
  }

  method DecodeFrame(frame: string, ulongMax: nat) returns (cmd: Option<Command>)
    ensures cmd == Decode(frame, ulongMax)
  {
    if |frame| == 0 || |frame| >= MAX_FRAME {
      return None;
    }
    var end := FindChar(frame, '\0', 0);
    cmd := DecodeLineInPlace(frame[..end], ulongMax);
  }

  /** The output buffer is cleared first and holds either the whole frame or nothing. */
  method EncodeInto(cmd: Command, output: array<char>) returns (success: bool, written: nat)
    modifies output
    ensures success <==> Encode(cmd, output.Length).Some?
    ensures success ==> written == |Frame(cmd)| < output.Length && output[..written] == Frame(cmd)
    ensures !success ==> written == 0
    ensures forall i :: written <= i < output.Length ==> output[i] == '\0'
  {
    if output.Length == 0 {
      return false, 0;
    }
    forall i | 0 <= i < output.Length {
      output[i] := '\0';
    }
    if cmd.kind.NoCommand? {
      return false, 0;
    }
    var text := Frame(cmd);
    if |text| >= output.Length {
      return false, 0;
    }
    PrintInto(text, output);
    return true, |text|;
  }
}
