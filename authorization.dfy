/**
 * The Authorization header (section 4.2 of RFC 7235): an authentication
 * type followed by one space and the credentials.
 */
module Authorization {
  import opened Wrappers
  import opened PhpString

  const Name := "Authorization"

  const Basic := "Basic"
  const Bearer := "Bearer"

  /** The only types `read()` accepts. */
  const Types: seq<string> := [Basic, Bearer]

  datatype Authorization = Authorization(authType: string, credentials: string)

  function AuthType(a: Authorization): (r: string)
    ensures Authorization(r, a.credentials) == a
  {
    a.authType
  }

  function Credentials(a: Authorization): (r: string)
    ensures Authorization(a.authType, r) == a
  {
    a.credentials
  }

  predicate IsBasic(a: Authorization)
  {
    a.authType == Basic
  }

  predicate IsBearer(a: Authorization)
  {
    a.authType == Bearer
  }

  /** `write()`: the header value `type credentials`. */
  function Write(a: Authorization): (r: string)
    ensures |r| == |a.authType| + 1 + |a.credentials|
    ensures r[..|a.authType|] == a.authType && r[|a.authType|] == ' ' && r[|a.authType| + 1..] == a.credentials
  {
    a.authType + " " + a.credentials
  }

  /**
   * `read()` of the message's first Authorization value, or of its absence:
   * null without a space, null for a type outside `Types`.
   */
  function Read(header: Option<string>): (r: Option<Authorization>)
    ensures r.Some? ==> header.Some? && r.value.authType in Types
    ensures r.Some? ==> header.value == r.value.authType + " " + r.value.credentials
  {
    match header
    case None => None
    case Some(v) =>
      var parts := ExplodeOnce(" ", v);
      ExplodeOncePieces(" ", v);
      if |parts| != 2 then None
      else if parts[0] !in Types then None
      else Some(Authorization(parts[0], parts[1]))
  }

  // ---------------------------------------------------------------------------
  // Properties

  /** No header, no authorization. */
  lemma ReadAbsent()
    ensures Read(None) == None
  {
  }

  /** A value without a space is refused. */
  lemma ReadWithoutSpace(v: string)
    requires ' ' !in v
    ensures Read(Some(v)) == None
  {
    CharSepFree(' ', v);
    ExplodeOncePieces(" ", v);
  }

  /** Text before the first space that is not a known type is refused. */
  lemma ReadUnknownType(t: string, rest: string)
    requires ' ' !in t && t !in Types
    ensures Read(Some(t + " " + rest)) == None
  {
    CharSepFree(' ', t);
    ExplodeOnceAfter(" ", t, rest);
  }

  /** A value is read exactly when it is a known type, a space, and the rest; the credentials may hold further spaces. */
  lemma ReadAccepts(v: string)
    ensures Read(Some(v)).Some? <==> exists i | 0 <= i < |v| :: v[i] == ' ' && v[..i] in Types
  {
    if Read(Some(v)).Some? {
      var t := Read(Some(v)).value.authType;
      assert v[|t|] == ' ' && v[..|t|] == t;
    } else if exists i | 0 <= i < |v| :: v[i] == ' ' && v[..i] in Types {
      var i :| 0 <= i < |v| && v[i] == ' ' && v[..i] in Types;
      ReadAt(v, i);
    }
  }

  /** A known type ending at a space is read, whatever follows. */
  lemma ReadAt(v: string, i: int)
    requires 0 <= i < |v| && v[i] == ' ' && v[..i] in Types
    ensures Read(Some(v)).Some?
  {
    var t := v[..i];
    assert ' ' !in t;
    assert v == t + " " + v[i + 1..];
    CharSepFree(' ', t);
    ExplodeOnceAfter(" ", t, v[i + 1..]);
  }

  /** Writing a known type and reading it back gives the same type and credentials. */
  lemma RoundTrip(a: Authorization)
    requires a.authType in Types
    ensures Read(Some(Write(a))) == Some(a)
  {
    assert ' ' !in a.authType;
    CharSepFree(' ', a.authType);
    ExplodeOnceAfter(" ", a.authType, a.credentials);
  }

  /** Whatever is read back writes out to the very value it came from. */
  lemma ReadWrite(v: string)
    requires Read(Some(v)).Some?
    ensures Write(Read(Some(v)).value) == v
  {
  }

  /** The two type tests agree with the type and never both hold; a read authorization passes exactly one. */
  lemma TypeTests(a: Authorization)
    ensures IsBasic(a) <==> a.authType == "Basic"
    ensures IsBearer(a) <==> a.authType == "Bearer"
    ensures !(IsBasic(a) && IsBearer(a))
    ensures a.authType in Types <==> IsBasic(a) || IsBearer(a)
  {
  }
}
