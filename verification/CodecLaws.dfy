/** Encoding and decoding commands: when they undo each other. */
module CodecLaws {
  import opened Basics
  import opened CStrings
  import opened BrowserProtocol
  import opened CommandCodec

  /** Every field shorter than the buffer it goes to. */
  predicate FieldsFit(cmd: Command) {
    |cmd.origin| < ORIGIN_SIZE && |cmd.username| < USERNAME_SIZE && |cmd.password| < PASSWORD_SIZE
  }

  predicate NoNul(cmd: Command) {
    '\0' !in cmd.origin && '\0' !in cmd.username && '\0' !in cmd.password
  }

  /** A command as its C struct can hold it: NUL-terminated fields of their sizes. */
  predicate Representable(cmd: Command) { FieldsFit(cmd) && NoNul(cmd) }

  /** Every field cut to its buffer. */
  function Cut(cmd: Command): Command {
    cmd.(origin := Clip(cmd.origin, ORIGIN_SIZE), username := Clip(cmd.username, USERNAME_SIZE),
         password := Clip(cmd.password, PASSWORD_SIZE))
  }

  predicate NoSeparator(cmd: Command) {
    ';' !in cmd.origin && ';' !in cmd.username && ';' !in cmd.password
  }

  predicate EndsInNewline(s: string) { s != "" && s[|s| - 1] in {'\r', '\n'} }

  // ---- numbers ------------------------------------------------------------------

  lemma DecimalAppend(s: string, d: nat)
    requires d < 10 && AllDigits(s)
    ensures var t := s + ["0123456789"[d]];
      AllDigits(t) && DecimalValue(t) == DecimalValue(s) * 10 + d
  {
    var c := "0123456789"[d];
    assert IsDigit(c) && c as int - '0' as int == d;
    assert (s + [c])[..|s|] == s;
  }

  lemma {:induction false} DecimalRoundTrip(n: nat)
    ensures var s := Decimal(n);
      s != "" && AllDigits(s) && DecimalValue(s) == n
  {
    if n >= 10 {
      DecimalRoundTrip(n / 10);
      DecimalAppend(Decimal(n / 10), n % 10);
    } else {
      DecimalAppend("", n);
      assert Decimal(n) == "" + ["0123456789"[n]];
    }
  }

  lemma {:induction false} DecimalLength(n: nat, digits: nat, bound: nat)
    requires digits > 0 && bound == Power10(digits) && n < bound
    ensures |Decimal(n)| <= digits
    decreases digits
  {
    if n >= 10 {
      DecimalLength(n / 10, digits - 1, Power10(digits - 1));
    }
  }

  function Power10(n: nat): nat { if n == 0 then 1 else 10 * Power10(n - 1) }

  lemma NonceLength(n: uint32)
    ensures |Decimal(n)| <= 10
  {
    assert Power10(5) == 100000 && Power10(10) == 10000000000 by {
      assert Power10(2) == 100 && Power10(4) == 10000 && Power10(6) == 1000000 && Power10(8) == 100000000;
    }
    DecimalLength(n, 10, Power10(10));
  }

  lemma NonceRoundTrip(n: uint32, ulongMax: nat)
    requires ulongMax >= UINT32_MAX
    ensures ParseNonce(Decimal(n), ulongMax) == Some(n)
  {
    DecimalRoundTrip(n);
    DigitNonce(Decimal(n), ulongMax);
  }

  /** A nonce of digits means its value while that fits 32 bits. Beyond, the range
      check refuses it only where `unsigned long` is wider than 32 bits; on a
      32-bit target the value is cut to the largest one instead. */
  lemma DigitNonce(ds: string, ulongMax: nat)
    requires ds != "" && AllDigits(ds) && ulongMax >= UINT32_MAX
    ensures ParseNonce(ds, ulongMax)
         == if DecimalValue(ds) <= UINT32_MAX then Some(DecimalValue(ds))
            else if ulongMax == UINT32_MAX then Some(UINT32_MAX) else None
  {
    assert IsDigit(ds[0]);
    assert SkipSpace(ds) == ds;
  }

  lemma TypeRoundTrip(kind: CommandType)
    requires !kind.NoCommand?
    ensures ParseType(TypeName(kind)) == Some(kind)
  {
    var name := TypeName(kind);
    assert kind.RequestSave? ==> name[8] != "REQUEST_FILL"[8];
    assert kind.RequestSelectNext? ==> name[..16][8] != "REQUEST_GENERATE"[..16][8];
  }

  /** Which type values are recognised: the two short names only as they are, the two
      long ones by their first sixteen characters, whatever follows. */
  lemma TypeRecognisedIff(value: string)
    ensures ParseType(value) == Some(RequestFill) <==> value == "REQUEST_FILL"
    ensures ParseType(value) == Some(RequestSave) <==> value == "REQUEST_SAVE"
    ensures ParseType(value) == Some(RequestGenerate) <==> |value| >= 16 && value[..16] == "REQUEST_GENERATE"
    ensures ParseType(value) == Some(RequestSelectNext) <==> |value| >= 16 && value[..16] == "REQUEST_SELECT_N"
    ensures ParseType(value) != Some(NoCommand)
  {
    assert "REQUEST_GENERATE"[..16] == "REQUEST_GENERATE" && "REQUEST_SELECT_NEXT"[..16] == "REQUEST_SELECT_N";
    assert "REQUEST_FILL"[8] == 'F' && "REQUEST_SAVE"[8] == 'S' && "REQUEST_GENERATE"[8] == 'G';
    assert "REQUEST_SELECT_N"[9] == 'E' && "REQUEST_SAVE"[9] == 'A';
    assert |value| >= 16 ==> value[..16][8] == value[8];
  }

  /** So a name that is none of the four is taken for one of them. */
  lemma UnknownTypeAccepted(suffix: string)
    ensures ParseType("REQUEST_GENERATE" + suffix) == Some(RequestGenerate)
    ensures ParseType("REQUEST_SELECT_N" + suffix) == Some(RequestSelectNext)
  {
    var g, s := "REQUEST_GENERATE" + suffix, "REQUEST_SELECT_N" + suffix;
    assert g[..16] == "REQUEST_GENERATE" && s[..16] == "REQUEST_SELECT_N";
    TypeRecognisedIff(g);
    TypeRecognisedIff(s);
  }

  // ---- one field at a time -------------------------------------------------------

  /** A printed field read back, with more fields behind it. */
  lemma FieldRead(key: string, value: string, rest: string, p: Partial, ulongMax: nat)
    requires key != "" && '=' !in key && ';' !in key && ';' !in value
    ensures var read := WithField(p, key, value, ulongMax);
      Fields(key + "=" + value + ";" + rest, p, ulongMax)
      == if read.None? then None else Fields(rest, read.value, ulongMax)
  {
    var token := key + "=" + value;
    var s := token + ";" + rest;
    TokenOfField(key, value, p, ulongMax);
    assert s[0..] == s && s[0..|token|] == token && s[|token| + 1..] == rest;
    TokenRound(s, 0, 0, |token|, |token| + 1, p, ulongMax);
  }

  lemma LastFieldRead(key: string, value: string, p: Partial, ulongMax: nat)
    requires key != "" && '=' !in key && ';' !in key && ';' !in value
    ensures Fields(key + "=" + value, p, ulongMax) == WithField(p, key, value, ulongMax)
  {
    var s := key + "=" + value;
    TokenOfField(key, value, p, ulongMax);
    assert s[0..] == s && s[0..|s|] == s && s[|s|..] == "";
    TokenRound(s, 0, 0, |s|, |s|, p, ulongMax);
  }

  lemma TokenOfField(key: string, value: string, p: Partial, ulongMax: nat)
    requires '=' !in key
    ensures WithToken(p, key + "=" + value, ulongMax) == WithField(p, key, value, ulongMax)
  {
    var token := key + "=" + value;
    assert forall i :: 0 <= i < |key| ==> token[i] == key[i];
    IndexOfIs(token, '=', 0, |key|);
    assert token[..|key|] == key && token[|key| + 1..] == value;
  }

  lemma TypeRead(kind: CommandType, rest: string, p: Partial, ulongMax: nat)
    requires !kind.NoCommand?
    ensures Fields("type=" + TypeName(kind) + ";" + rest, p, ulongMax)
         == Fields(rest, Partial(p.cmd.(kind := kind), true), ulongMax)
  {
    TypeRoundTrip(kind);
    assert ';' !in TypeName(kind) && "type" + "=" == "type=";
    FieldRead("type", TypeName(kind), rest, p, ulongMax);
  }

  lemma NonceRead(nonce: uint32, rest: string, p: Partial, ulongMax: nat)
    requires ulongMax >= UINT32_MAX
    ensures Fields("nonce=" + Decimal(nonce) + ";" + rest, p, ulongMax)
         == Fields(rest, p.(cmd := p.cmd.(nonce := nonce)), ulongMax)
  {
    NonceRoundTrip(nonce, ulongMax);
    DecimalRoundTrip(nonce);
    assert forall c :: c in Decimal(nonce) ==> IsDigit(c);
    assert "nonce" + "=" == "nonce=";
    FieldRead("nonce", Decimal(nonce), rest, p, ulongMax);
  }

  lemma OriginRead(origin: string, rest: string, p: Partial, ulongMax: nat)
    requires ';' !in origin
    ensures Fields("origin=" + origin + ";" + rest, p, ulongMax)
         == Fields(rest, p.(cmd := p.cmd.(origin := Clip(origin, ORIGIN_SIZE))), ulongMax)
  {
    assert "origin" + "=" == "origin=";
    FieldRead("origin", origin, rest, p, ulongMax);
  }

  lemma UsernameRead(username: string, rest: string, p: Partial, ulongMax: nat)
    requires ';' !in username
    ensures Fields("username=" + username + ";" + rest, p, ulongMax)
         == Fields(rest, p.(cmd := p.cmd.(username := Clip(username, USERNAME_SIZE))), ulongMax)
  {
    assert "username" + "=" == "username=";
    FieldRead("username", username, rest, p, ulongMax);
  }

  lemma PasswordRead(password: string, p: Partial, ulongMax: nat)
    requires ';' !in password
    ensures Fields("password=" + password, p, ulongMax)
         == Some(p.(cmd := p.cmd.(password := Clip(password, PASSWORD_SIZE))))
  {
    assert "password" + "=" == "password=";
    LastFieldRead("password", password, p, ulongMax);
  }

  lemma Nested(a: string, b: string, c: string, d: string, e: string, f: string)
    ensures a + b + c + d + e + f == a + (b + (c + (d + (e + f))))
  {
  }

  /** The five fields of a frame, of any length, read back with any password text at
      the end: each is cut to its buffer. */
  lemma FrameRead(cmd: Command, password: string, ulongMax: nat)
    requires NoSeparator(cmd) && !cmd.kind.NoCommand? && ulongMax >= UINT32_MAX && ';' !in password
    ensures Fields(FrameHead(cmd) + password, NOTHING_READ, ulongMax)
         == Some(Partial(Cut(cmd.(password := password)), true))
  {
    var last := "password=" + password;
    var from4 := "username=" + cmd.username + ";" + last;
    var from3 := "origin=" + cmd.origin + ";" + from4;
    var from2 := "nonce=" + Decimal(cmd.nonce) + ";" + from3;
    Nested("type=" + TypeName(cmd.kind) + ";", "nonce=" + Decimal(cmd.nonce) + ";", "origin=" + cmd.origin + ";",
           "username=" + cmd.username + ";", "password=", password);
    TypeRead(cmd.kind, from2, NOTHING_READ, ulongMax);
    var p := Partial(Command(cmd.kind, 0, "", "", ""), true);
    NonceRead(cmd.nonce, from3, p, ulongMax);
    p := p.(cmd := p.cmd.(nonce := cmd.nonce));
    OriginRead(cmd.origin, from4, p, ulongMax);
    p := p.(cmd := p.cmd.(origin := Clip(cmd.origin, ORIGIN_SIZE)));
    UsernameRead(cmd.username, last, p, ulongMax);
    p := p.(cmd := p.cmd.(username := Clip(cmd.username, USERNAME_SIZE)));
    PasswordRead(password, p, ulongMax);
  }

  lemma {:induction false} TrimAfter(head: string, s: string)
    requires head != "" && !IsNewline(head[|head| - 1])
    ensures Trim(head + s) == head + Trim(s)
    decreases |s|
  {
    if EndsInNewline(s) {
      assert (head + s)[..|head + s| - 1] == head + s[..|s| - 1];
      TrimAfter(head, s[..|s| - 1]);
    } else if s == "" {
      assert head + s == head;
    }
  }

  /** A frame is at most 69 characters longer than its three texts, so at most 386 in
      all for a command that fits its buffers, and always fits the decoder's 512. */
  lemma FrameFits(cmd: Command)
    ensures 0 < |Frame(cmd)| <= 69 + |cmd.origin| + |cmd.username| + |cmd.password|
    ensures FieldsFit(cmd) ==> |Frame(cmd)| <= 386
  {
    NonceLength(cmd.nonce);
  }

  lemma FrameHasNoNul(cmd: Command)
    requires NoNul(cmd)
    ensures '\0' !in Frame(cmd)
  {
    DecimalRoundTrip(cmd.nonce);
    assert '\0' !in TypeName(cmd.kind);
    assert '\0' !in Decimal(cmd.nonce) by {
      assert forall c :: c in Decimal(cmd.nonce) ==> IsDigit(c);
    }
    NoNulIn("type=", TypeName(cmd.kind));
    NoNulIn("nonce=", Decimal(cmd.nonce));
    NoNulIn("origin=", cmd.origin);
    NoNulIn("username=", cmd.username);
  }

  lemma NoNulIn(key: string, value: string)
    requires '\0' !in key && '\0' !in value
    ensures '\0' !in key + value + ";"
  {
  }

  /** A frame of five fields of any length, if it fits the decoder's buffer, is accepted:
      newlines at the end of the password are dropped, and then every field is cut to
      its own buffer. */
  lemma DecodeEncode(cmd: Command, ulongMax: nat)
    requires NoNul(cmd) && NoSeparator(cmd) && !cmd.kind.NoCommand? && ulongMax >= UINT32_MAX
    requires |Frame(cmd)| < MAX_FRAME
    ensures Decode(Frame(cmd), ulongMax) == Some(Cut(cmd.(password := Trim(cmd.password))))
  {
    FrameHasNoNul(cmd);
    assert IndexOf(Frame(cmd), '\0', 0) == |Frame(cmd)|;
    assert Frame(cmd)[..|Frame(cmd)|] == Frame(cmd);
    TrimAfter(FrameHead(cmd), cmd.password);
    FrameRead(cmd, Trim(cmd.password), ulongMax);
  }

  /** A value too long for its buffer is not refused but cut: such a frame is always
      accepted, and means what it says exactly when every value fits. */
  lemma LongFieldsAreCut(cmd: Command, ulongMax: nat)
    requires NoNul(cmd) && NoSeparator(cmd) && !cmd.kind.NoCommand? && ulongMax >= UINT32_MAX
    requires !EndsInNewline(cmd.password) && |Frame(cmd)| < MAX_FRAME
    ensures Decode(Frame(cmd), ulongMax) == Some(Cut(cmd))
    ensures Decode(Frame(cmd), ulongMax) == Some(cmd) <==> FieldsFit(cmd)
  {
    DecodeEncode(cmd, ulongMax);
    TrimEnds(cmd.password);
    CutIsWholeIff(cmd);
  }

  /** One such frame: an origin of 96 characters is accepted as another one, of 95. */
  lemma OverlongOriginAccepted(nonce: uint32, ulongMax: nat) returns (cmd: Command)
    requires ulongMax >= UINT32_MAX
    ensures |cmd.origin| == ORIGIN_SIZE && cmd.nonce == nonce
    ensures Decode(Frame(cmd), ulongMax) == Some(cmd.(origin := cmd.origin[..ORIGIN_SIZE - 1]))
  {
    cmd := Command(RequestFill, nonce, seq(ORIGIN_SIZE, _ => 'a'), "", "");
    FrameFits(cmd);
    LongFieldsAreCut(cmd, ulongMax);
  }

  lemma CutIsWholeIff(cmd: Command)
    ensures Cut(cmd) == cmd <==> FieldsFit(cmd)
  {
  }

  // ---- what decoding yields --------------------------------------------------------

  /** What every command read from a line looks like. */
  ghost predicate Clean(p: Partial) {
    Representable(p.cmd) && NoSeparator(p.cmd) && (p.typed ==> !p.cmd.kind.NoCommand?)
  }

  lemma TokenKeepsClean(p: Partial, token: string, ulongMax: nat)
    requires Clean(p) && ';' !in token && '\0' !in token
    ensures WithToken(p, token, ulongMax).Some? ==> Clean(WithToken(p, token, ulongMax).value)
  {
    var eq := IndexOf(token, '=', 0);
    if eq < |token| {
      var value := token[eq + 1..];
      assert forall c :: c in value ==> c in token;
      FieldKeepsClean(p, token[..eq], value, ulongMax);
    }
  }

  lemma FieldKeepsClean(p: Partial, key: string, value: string, ulongMax: nat)
    requires Clean(p) && ';' !in value && '\0' !in value
    ensures WithField(p, key, value, ulongMax).Some? ==> Clean(WithField(p, key, value, ulongMax).value)
  {
    assert forall n: nat, c :: n > 0 && c in Clip(value, n) ==> c in value;
  }

  lemma {:induction false} FieldsKeepClean(s: string, p: Partial, ulongMax: nat)
    requires Clean(p) && '\0' !in s
    ensures Fields(s, p, ulongMax).Some? ==> Clean(Fields(s, p, ulongMax).value)
    decreases |s|
  {
    if s != "" {
      if s[0] == ';' {
        FieldsKeepClean(s[1..], p, ulongMax);
      } else {
        var k := IndexOf(s, ';', 0);
        TokenKeepsClean(p, s[..k], ulongMax);
        var next := WithToken(p, s[..k], ulongMax);
        if next.Some? {
          FieldsKeepClean(s[k..], next.value, ulongMax);
        }
      }
    }
  }

  lemma {:induction false} TrimEnds(s: string)
    ensures !EndsInNewline(Trim(s)) && (Trim(s) == s <==> !EndsInNewline(s))
    decreases |s|
  {
    if EndsInNewline(s) {
      TrimEnds(s[..|s| - 1]);
    }
  }

  lemma DecodedIsClean(frame: string, ulongMax: nat)
    requires Decode(frame, ulongMax).Some?
    ensures Clean(Partial(Decode(frame, ulongMax).value, true))
  {
    var line := frame[..IndexOf(frame, '\0', 0)];
    FieldsKeepClean(Trim(line), NOTHING_READ, ulongMax);
  }

  /** A command is printed if and only if it has one of the four types and its frame, with
      the NUL behind it, fits the output. */
  lemma EncodeIff(cmd: Command, outLen: nat)
    ensures Encode(cmd, outLen).Some?
       <==> cmd.kind in {RequestFill, RequestSave, RequestGenerate, RequestSelectNext} && |Frame(cmd)| + 1 <= outLen
    ensures Encode(cmd, outLen).Some? ==> Encode(cmd, outLen).value == Frame(cmd)
  {
  }

  /** The round trip, for every command of the four types: it succeeds exactly when
      no field holds a separator and the password does not end in a newline. Equals
      signs are welcome anywhere. */
  lemma RoundTrip(cmd: Command, outLen: nat, ulongMax: nat)
    requires Representable(cmd) && !cmd.kind.NoCommand? && outLen > 386 && ulongMax >= UINT32_MAX
    ensures Encode(cmd, outLen).Some?
    ensures Decode(Encode(cmd, outLen).value, ulongMax) == Some(cmd)
       <==> NoSeparator(cmd) && !EndsInNewline(cmd.password)
  {
    FrameFits(cmd);
    TrimEnds(cmd.password);
    CutIsWholeIff(cmd.(password := Trim(cmd.password)));
    if NoSeparator(cmd) {
      DecodeEncode(cmd, ulongMax);
    } else if Decode(Frame(cmd), ulongMax) == Some(cmd) {
      DecodedIsClean(Frame(cmd), ulongMax);
    }
  }

  /** The normal form: whatever an accepted frame looked like - keys in any order,
      repeated, a signed or padded nonce - its command can be encoded, and decoding
      that gives the same command unless its password ends in a newline. */
  lemma NormalForm(frame: string, ulongMax: nat)
    requires Decode(frame, ulongMax).Some? && ulongMax >= UINT32_MAX
    ensures var cmd := Decode(frame, ulongMax).value;
      var again := Encode(cmd, MAX_FRAME);
      && again.Some?
      && (Decode(again.value, ulongMax) == Some(cmd) <==> !EndsInNewline(cmd.password))
  {
    DecodedIsClean(frame, ulongMax);
    RoundTrip(Decode(frame, ulongMax).value, MAX_FRAME, ulongMax);
  }
}
