/** browser_protocol.c: commands and their validation, used here only as the
    predicate that gates the action engine. */
module BrowserProtocol {
  import opened Basics

  const ORIGIN_SIZE: nat := 96
  const USERNAME_SIZE: nat := 96
  const PASSWORD_SIZE: nat := 128

  datatype CommandType = NoCommand | RequestFill | RequestSave | RequestGenerate | RequestSelectNext

  datatype Command = Command(kind: CommandType, nonce: uint32, origin: string, username: string, password: string)

  const EMPTY_COMMAND := Command(NoCommand, 0, "", "", "")

  datatype Verdict =
    | MissingFields
    | FieldTooLong
    | UnsafeCharacters
    | UnsafeContent
    | UsernameTooShort
    | HighRiskOrigin
    | Accepted

  predicate HasAt(s: string, part: string, i: nat) {
    i + |part| <= |s| && s[i..i + |part|] == part
  }

  /** `strstr(s, part) != NULL` */
  predicate Contains(s: string, part: string) {
    exists i: nat :: i <= |s| && HasAt(s, part, i)
  }

  predicate SafeText(s: string) {
    forall i :: 0 <= i < |s| ==> s[i] as int >= 32 && s[i] as int != 127
  }

  predicate UrlLike(s: string) {
    s != "" && (Contains(s, "://") || "www." <= s || Contains(s, "javascript:"))
  }

  predicate Suspicious(origin: string) {
    || origin == ""
    || !Contains(origin, "://")
    || !("https://" <= origin)
    || (exists i :: 0 <= i < |origin| && origin[i] as int > 127)
    || '@' in origin
  }

  predicate HasRequiredFields(cmd: Command) {
    match cmd.kind
    case NoCommand => false
    case RequestFill => cmd.origin != ""
    case RequestGenerate => cmd.origin != ""
    case RequestSave => cmd.origin != "" && cmd.username != "" && cmd.password != ""
    case RequestSelectNext => true
  }

  function Check(cmd: Command): Verdict {
    if !HasRequiredFields(cmd) then MissingFields
    else if |cmd.origin| >= ORIGIN_SIZE || |cmd.username| >= USERNAME_SIZE || |cmd.password| >= PASSWORD_SIZE then
      FieldTooLong
    else if !SafeText(cmd.origin) || !SafeText(cmd.username) || !SafeText(cmd.password) then UnsafeCharacters
    else if UrlLike(cmd.username) || UrlLike(cmd.password) then UnsafeContent
    else if |cmd.username| == 1 then UsernameTooShort
    else if !cmd.kind.RequestSelectNext? && Suspicious(cmd.origin) then HighRiskOrigin
    else Accepted
  }

  /** `browser_validate_command` returned true. */
  predicate Validated(cmd: Command) { Check(cmd).Accepted? }

  predicate Printable(s: string) { forall i :: 0 <= i < |s| ==> s[i] as int >= 32 && s[i] as int != 127 }

  predicate NoAddress(s: string) { !Contains(s, "://") && !Contains(s, "javascript:") && !("www." <= s) }

  lemma UrlLikeIff(s: string)
    ensures UrlLike(s) <==> !NoAddress(s)
  {
    if s == "" {
      assert !Contains(s, "://") && !Contains(s, "javascript:");
    }
  }

  lemma SuspiciousIff(origin: string)
    ensures Suspicious(origin)
       <==> !("https://" <= origin && '@' !in origin && forall i :: 0 <= i < |origin| ==> origin[i] as int <= 127)
  {
    if "https://" <= origin {
      assert origin[5..8] == "://" && HasAt(origin, "://", 5);
    }
  }

  /** What is accepted, of any kind: fields present and short enough, printable, no address
      among username and password, no username of one character, and - but for a
      selection - an `https` origin in plain ASCII without an at sign. */
  lemma ValidatedIff(cmd: Command)
    ensures Validated(cmd)
       <==> && !cmd.kind.NoCommand?
            && (cmd.kind.RequestSave? ==> cmd.username != "" && cmd.password != "")
            && |cmd.origin| <= 95 && |cmd.username| <= 95 && |cmd.password| <= 127 && |cmd.username| != 1
            && Printable(cmd.origin) && Printable(cmd.username) && Printable(cmd.password)
            && NoAddress(cmd.username) && NoAddress(cmd.password)
            && (!cmd.kind.RequestSelectNext? ==>
                  && "https://" <= cmd.origin && '@' !in cmd.origin
                  && forall i :: 0 <= i < |cmd.origin| ==> cmd.origin[i] as int <= 127)
  {
    UrlLikeIff(cmd.username);
    UrlLikeIff(cmd.password);
    SuspiciousIff(cmd.origin);
  }
}
