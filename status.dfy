/**
 * An HTTP response status: a code and a reason phrase, with the default
 * phrases of the status codes of RFC 7231 and its companions.
 */
module Status {
  import opened Wrappers
  import opened PhpString
  import opened Decimal

  /** The default reason phrase of each known code (the table is split by class). */
  function Reasons(code: int): Option<string>
  {
    if 100 <= code < 200 then InformationalReason(code)
    else if 200 <= code < 300 then SuccessReason(code)
    else if 300 <= code < 400 then RedirectReason(code)
    else if 400 <= code < 416 then ClientErrorReason(code)
    else if 416 <= code < 500 then LateClientErrorReason(code)
    else if 500 <= code < 600 then ServerErrorReason(code)
    else None
  }

  function InformationalReason(code: int): Option<string>
  {
    match code
    case 100 => Some("Continue")
    case 101 => Some("Switching Protocols")
    case 102 => Some("Processing")
    case _ => None
  }

  function SuccessReason(code: int): Option<string>
  {
    match code
    case 200 => Some("OK")
    case 201 => Some("Created")
    case 202 => Some("Accepted")
    case 203 => Some("Non-Authoritative Information")
    case 204 => Some("No Content")
    case 205 => Some("Reset Content")
    case 206 => Some("Partial Content")
    case 207 => Some("Multi-Status")
    case 208 => Some("Already Reported")
    case 226 => Some("IM Used")
    case _ => None
  }

  function RedirectReason(code: int): Option<string>
  {
    match code
    case 300 => Some("Multiple Choices")
    case 301 => Some("Moved Permanently")
    case 302 => Some("Found")
    case 303 => Some("See Other")
    case 304 => Some("Not Modified")
    case 305 => Some("Use Proxy")
    case 307 => Some("Temporary Redirect")
    case 308 => Some("Permanent Redirect")
    case _ => None
  }

  function ClientErrorReason(code: int): Option<string>
  {
    match code
    case 400 => Some("Bad Request")
    case 401 => Some("Unauthorized")
    case 402 => Some("Payment Required")
    case 403 => Some("Forbidden")
    case 404 => Some("Not Found")
    case 405 => Some("Method Not Allowed")
    case 406 => Some("Not Acceptable")
    case 407 => Some("Proxy Authentication Required")
    case 408 => Some("Request Timeout")
    case 409 => Some("Conflict")
    case 410 => Some("Gone")
    case 411 => Some("Length Required")
    case 412 => Some("Precondition Failed")
    case 413 => Some("Payload Too Large")
    case 414 => Some("URI Too Long")
    case 415 => Some("Unsupported Media Type")
    case _ => None
  }

  function LateClientErrorReason(code: int): Option<string>
  {
    match code
    case 416 => Some("Range Not Satisfiable")
    case 417 => Some("Expectation Failed")
    case 421 => Some("Misdirected Request")
    case 422 => Some("Unprocessable Entity")
    case 423 => Some("Locked")
    case 424 => Some("Failed Dependency")
    case 426 => Some("Upgrade Required")
    case 428 => Some("Precondition Required")
    case 429 => Some("Too Many Requests")
    case 431 => Some("Request Header Fields Too Large")
    case _ => None
  }

  function ServerErrorReason(code: int): Option<string>
  {
    match code
    case 500 => Some("Internal Server Error")
    case 501 => Some("Not Implemented")
    case 502 => Some("Bad Gateway")
    case 503 => Some("Service Unavailable")
    case 504 => Some("Gateway Timeout")
    case 505 => Some("HTTP Version Not Supported")
    case 506 => Some("Variant Also Negotiates")
    case 507 => Some("Insufficient Storage")
    case 508 => Some("Loop Detected")
    case 510 => Some("Not Extended")
    case 511 => Some("Network Authentication Required")
    case _ => None
  }

  /** The status codes and reason phrases of the overview in section 6.1 of RFC 7231, class by class. */
  const Informational: seq<(int, string)> := [(100, "Continue"), (101, "Switching Protocols")]
  const SuccessfulA: seq<(int, string)> := [(200, "OK"), (201, "Created"), (202, "Accepted"), (203, "Non-Authoritative Information")]
  const SuccessfulB: seq<(int, string)> := [(204, "No Content"), (205, "Reset Content"), (206, "Partial Content")]
  const RedirectionA: seq<(int, string)> := [(300, "Multiple Choices"), (301, "Moved Permanently"), (302, "Found"), (303, "See Other")]
  const RedirectionB: seq<(int, string)> := [(304, "Not Modified"), (305, "Use Proxy"), (307, "Temporary Redirect")]
  const ClientErrorA: seq<(int, string)> := [(400, "Bad Request"), (401, "Unauthorized"), (402, "Payment Required"), (403, "Forbidden")]
  const ClientErrorB: seq<(int, string)> := [(404, "Not Found"), (405, "Method Not Allowed"), (406, "Not Acceptable")]
  const ClientErrorC: seq<(int, string)> := [(407, "Proxy Authentication Required"), (408, "Request Timeout"), (409, "Conflict")]
  const ClientErrorD: seq<(int, string)> := [(410, "Gone"), (411, "Length Required"), (412, "Precondition Failed")]
  const ClientErrorE: seq<(int, string)> := [(413, "Payload Too Large"), (414, "URI Too Long"), (415, "Unsupported Media Type")]
  const ClientErrorF: seq<(int, string)> := [(416, "Range Not Satisfiable"), (417, "Expectation Failed"), (426, "Upgrade Required")]
  const ServerErrorA: seq<(int, string)> := [(500, "Internal Server Error"), (501, "Not Implemented"), (502, "Bad Gateway")]
  const ServerErrorB: seq<(int, string)> := [(503, "Service Unavailable"), (504, "Gateway Timeout"), (505, "HTTP Version Not Supported")]

  const Rfc7231Overview: seq<(int, string)> :=
    Informational + SuccessfulA + SuccessfulB + RedirectionA + RedirectionB
    + ClientErrorA + ClientErrorB + ClientErrorC + ClientErrorD + ClientErrorE + ClientErrorF
    + ServerErrorA + ServerErrorB

  /** The phrases of one group of the overview are all table defaults. */
  predicate AllDefaults(codes: seq<(int, string)>)
  {
    forall e | e in codes :: Reasons(e.0) == Some(e.1)
  }

  lemma InformationalDefaults() ensures AllDefaults(Informational) {}
  lemma SuccessfulDefaults() ensures AllDefaults(SuccessfulA) && AllDefaults(SuccessfulB) {}
  lemma RedirectionDefaults() ensures AllDefaults(RedirectionA) && AllDefaults(RedirectionB) {}
  lemma ClientErrorADefaults() ensures AllDefaults(ClientErrorA) {}
  lemma ClientErrorBDefaults() ensures AllDefaults(ClientErrorB) {}
  lemma ClientErrorCDefaults() ensures AllDefaults(ClientErrorC) {}
  lemma ClientErrorDDefaults() ensures AllDefaults(ClientErrorD) {}
  lemma ClientErrorEDefaults() ensures AllDefaults(ClientErrorE) {}
  lemma ClientErrorFDefaults() ensures AllDefaults(ClientErrorF) {}
  lemma ServerErrorDefaults() ensures AllDefaults(ServerErrorA) && AllDefaults(ServerErrorB) {}

  datatype Status = Status(code: int, reason: string)

  /** `new Status($code, $reason)`: a supplied reason wins, even "", then the table, then "Unknown". */
  function New(code: int, reason: Option<string>): (s: Status)
    ensures s.code == code
    ensures reason.Some? ==> s.reason == reason.value
    ensures reason.None? ==> s.reason == Reasons(code).GetOr("Unknown")
  {
    Status(code, match reason case Some(r) => r case None => Reasons(code).GetOr("Unknown"))
  }

  function Code(s: Status): (r: int)
    ensures New(r, Some(s.reason)) == s
  {
    s.code
  }

  function Reason(s: Status): (r: string)
    ensures New(s.code, Some(r)) == s
  {
    s.reason
  }

  /** `__toString()`: the decimal code, one space, the reason; splitting at the first space gives both back. */
  function ToString(s: Status): (r: string)
    ensures ExplodeOnce(" ", r) == [IntText(s.code), s.reason]
    ensures ParseInteger(ExplodeOnce(" ", r)[0]) == Some(s.code)
  {
    IntTextChars(s.code);
    assert ' ' !in IntText(s.code);
    CharSepFree(' ', IntText(s.code));
    ExplodeOnceAfter(" ", IntText(s.code), s.reason);
    IntTextRoundTrip(s.code);
    IntText(s.code) + " " + s.reason
  }

  /** For every code of the overview in section 6.1 of RFC 7231 the default reason is the RFC's phrase. */
  lemma DefaultsFollowRfc7231()
    ensures forall e | e in Rfc7231Overview :: New(e.0, None).reason == e.1
    ensures |Rfc7231Overview| == 41
  {
    InformationalDefaults();
    SuccessfulDefaults();
    RedirectionDefaults();
    ClientErrorADefaults();
    ClientErrorBDefaults();
    ClientErrorCDefaults();
    ClientErrorDDefaults();
    ClientErrorEDefaults();
    ClientErrorFDefaults();
    ServerErrorDefaults();
  }

  /** Codes the table does not know read "Unknown" by default; 306 and 999 are such codes. */
  lemma UnknownDefault(code: int)
    requires Reasons(code).None?
    ensures ToString(New(code, None)) == IntText(code) + " Unknown"
  {
  }

  lemma UnusedCodes()
    ensures Reasons(306).None? && Reasons(999).None? && Reasons(0).None?
  {
  }
}
