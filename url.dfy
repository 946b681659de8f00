/**
 * A URL as a value with eight components, its serialisation, and the
 * `with*` operations that return a copy with one component replaced.
 */
module Url {
  import opened Wrappers
  import opened PhpString
  import opened Decimal

  /** Components as stored; an absent port is `None` (PHP null). */
  datatype Url = Url(
    scheme: string, username: string, password: string, host: string,
    port: Option<int>, path: string, query: string, fragment: string)

  /** A URL with every component empty, as `new Url()` creates it. */
  const Empty := Url("", "", "", "", None, "", "", "")

  datatype Error = InvalidPort(port: int)

  /** A port number is truthy unless it is 0. */
  predicate PortTruthy(p: Option<int>)
  {
    p.Some? && p.value != 0
  }

  /** `port()`: the stored port, except the scheme's default (80 for http, 443 for https). */
  function Port(u: Url): (r: Option<int>)
    ensures (u.port == Some(80) && u.scheme == "http") || (u.port == Some(443) && u.scheme == "https") ==> r.None?
    ensures !((u.port == Some(80) && u.scheme == "http") || (u.port == Some(443) && u.scheme == "https")) ==> r == u.port
  {
    if u.port == Some(80) && u.scheme == "http" then None
    else if u.port == Some(443) && u.scheme == "https" then None
    else u.port
  }

  /** The user information: the username, then `:password` when the password is truthy. */
  function UserInfo(u: Url): string
  {
    if Truthy(u.password) then u.username + ":" + u.password else u.username
  }

  /** The host, then `:port` when the port is truthy. */
  function HostPort(u: Url): string
  {
    if PortTruthy(Port(u)) then u.host + ":" + IntText(Port(u).value) else u.host
  }

  /** `authority()`: `[userinfo@]host[:port]`, or the bare host when the host is falsy. */
  function Authority(u: Url): string
  {
    if !Truthy(u.host) then u.host
    else (if Truthy(UserInfo(u)) then UserInfo(u) + "@" else "") + HostPort(u)
  }

  /** The user information splits back into username and password at its first ':'. */
  lemma UserInfoParses(u: Url)
    requires ':' !in u.username
    ensures ExplodeOnce(":", UserInfo(u)) == if Truthy(u.password) then [u.username, u.password] else [u.username]
  {
    CharSepFree(':', u.username);
    if Truthy(u.password) {
      ExplodeOnceAfter(":", u.username, u.password);
    } else {
      ExplodeOncePieces(":", u.username);
    }
  }

  /** Host and port split back apart at the first ':'; a falsy or default port is not written. */
  lemma HostPortParses(u: Url)
    requires ':' !in u.host
    ensures ExplodeOnce(":", HostPort(u)) == if PortTruthy(Port(u)) then [u.host, IntText(Port(u).value)] else [u.host]
  {
    CharSepFree(':', u.host);
    if PortTruthy(Port(u)) {
      ExplodeOnceAfter(":", u.host, IntText(Port(u).value));
    } else {
      ExplodeOncePieces(":", u.host);
    }
  }

  /**
   * Without a truthy host the authority is the host alone; with one, a truthy
   * user information comes first and splits off at the first '@'.
   */
  lemma AuthorityParses(u: Url)
    requires '@' !in u.username && '@' !in u.password
    ensures !Truthy(u.host) ==> Authority(u) == u.host
    ensures Truthy(u.host) && Truthy(UserInfo(u)) ==> ExplodeOnce("@", Authority(u)) == [UserInfo(u), HostPort(u)]
    ensures Truthy(u.host) && !Truthy(UserInfo(u)) ==> Authority(u) == HostPort(u)
  {
    if Truthy(u.host) {
      if Truthy(UserInfo(u)) {
        assert '@' !in UserInfo(u);
        CharSepFree('@', UserInfo(u));
        ExplodeOnceAfter("@", UserInfo(u), HostPort(u));
      }
    }
  }

  /** A component prefixed by its delimiter when truthy, else nothing. */
  function Part(delimiter: string, component: string): string
  {
    if Truthy(component) then delimiter + component else ""
  }

  /** Scheme, authority and path, each only when truthy; the path with exactly one leading slash. */
  function Base(u: Url): string
  {
    (if Truthy(u.scheme) then u.scheme + ":" else "")
    + (if Truthy(u.host) then "//" + Authority(u) else "")
    + (if Truthy(u.path) then "/" + LTrim(u.path, '/') else "")
  }

  /** `get()` / `__toString()`: scheme, authority, path, query and fragment, each only when truthy. */
  function Get(u: Url): string
  {
    Base(u) + Part("?", u.query) + Part("#", u.fragment)
  }

  // ---------------------------------------------------------------------------
  // Copies

  /** `withScheme()`: the scheme lowercased, with its trailing colons dropped. */
  function WithScheme(u: Url, scheme: string): (r: Url)
    ensures r.(scheme := u.scheme) == u
    ensures IsLower(r.scheme) && (r.scheme == [] || r.scheme[|r.scheme| - 1] != ':')
    ensures |r.scheme| <= |scheme| && r.scheme == Lower(scheme[..|r.scheme|])
    ensures forall i | |r.scheme| <= i < |scheme| :: scheme[i] == ':'
  {
    var s := RTrim(scheme, ':');
    LowerIsLower(s);
    u.(scheme := Lower(s))
  }

  function WithUserInfo(u: Url, username: string, password: string): (r: Url)
    ensures r.(username := u.username, password := u.password) == u
    ensures r.username == username && r.password == password
  {
    u.(username := username, password := password)
  }

  /** `withHost()`: the host lowercased. */
  function WithHost(u: Url, host: string): (r: Url)
    ensures r.(host := u.host) == u
    ensures IsLower(r.host) && |r.host| == |host| && Lower(r.host) == Lower(host)
  {
    LowerIsLower(host);
    LowerIsLower(Lower(host));
    u.(host := Lower(host))
  }

  /** `withPort()`: null or a port from 0 to 65536 inclusive; anything else is refused. */
  function WithPort(u: Url, port: Option<int>): (r: Result<Url, Error>)
    ensures r.Failure? <==> port.Some? && (port.value < 0 || port.value > 65536)
    ensures r.Failure? ==> r.error == InvalidPort(port.value)
    ensures r.Success? ==> r.value.(port := u.port) == u && r.value.port == port
  {
    if port.Some? && (port.value < 0 || port.value > 65536) then Failure(InvalidPort(port.value))
    else Success(u.(port := port))
  }

  function WithPath(u: Url, path: string): (r: Url)
    ensures r.(path := u.path) == u && r.path == path
  {
    u.(path := path)
  }

  function WithQuery(u: Url, query: string): (r: Url)
    ensures r.(query := u.query) == u && r.query == query
  {
    u.(query := query)
  }

  function WithFragment(u: Url, fragment: string): (r: Url)
    ensures r.(fragment := u.fragment) == u && r.fragment == fragment
  {
    u.(fragment := fragment)
  }

  // ---------------------------------------------------------------------------
  // Properties

  /** A scheme or host already normalised is left as it is. */
  lemma WithSchemeIdempotent(u: Url, scheme: string)
    ensures WithScheme(WithScheme(u, scheme), WithScheme(u, scheme).scheme) == WithScheme(u, scheme)
  {
    var s := WithScheme(u, scheme).scheme;
    assert s == [] || s[|s| - 1] != ':';
    assert RTrim(s, ':') == s;
    LowerIsLower(s);
  }

  lemma WithHostIdempotent(u: Url, host: string)
    ensures WithHost(WithHost(u, host), WithHost(u, host).host) == WithHost(u, host)
  {
    LowerIsLower(host);
    LowerIsLower(Lower(host));
  }

  /** The scheme's default port is never written out. */
  lemma DefaultPortElided(u: Url)
    requires (u.port == Some(80) && u.scheme == "http") || (u.port == Some(443) && u.scheme == "https")
    ensures Get(u) == Get(u.(port := None)) && Authority(u) == Authority(u.(port := None))
  {
  }

  /** Leading slashes of the path do not matter: exactly one is written. */
  lemma PathSlashes(u: Url, path: string)
    requires Truthy(path)
    ensures Get(u.(path := "/" + path)) == Get(u.(path := path))
  {
    assert ("/" + path)[1..] == path;
    assert LTrim("/" + path, '/') == LTrim(path, '/');
    SamePathText(u, "/" + path, path);
  }

  /** Two paths that are both truthy and trim to the same text give the same URL. */
  lemma SamePathText(u: Url, p: string, q: string)
    requires Truthy(p) && Truthy(q) && LTrim(p, '/') == LTrim(q, '/')
    ensures Get(u.(path := p)) == Get(u.(path := q))
  {
    AuthorityWithoutPath(u, p);
    AuthorityWithoutPath(u, q);
    assert Base(u.(path := p)) == Base(u.(path := q));
  }

  /** The authority does not depend on the path. */
  lemma AuthorityWithoutPath(u: Url, path: string)
    ensures Authority(u.(path := path)) == Authority(u)
  {
    assert Port(u.(path := path)) == Port(u);
  }

  /** Every component left empty gives the empty string. */
  lemma EmptyUrl()
    ensures Get(Empty) == ""
  {
  }

  /** The text before the query and fragment contains none of `c` when no component does. */
  lemma BaseFree(u: Url, c: char)
    requires c != ':' && c != '/' && c != '@' && c != '-' && !IsDigit(c)
    requires c !in u.scheme && c !in u.username && c !in u.password && c !in u.host && c !in u.path
    ensures c !in Base(u)
  {
    if PortTruthy(Port(u)) {
      IntTextChars(Port(u).value);
      assert c !in IntText(Port(u).value);
    }
    assert c !in HostPort(u);
    assert c !in UserInfo(u);
    assert c !in Authority(u);
    assert c !in LTrim(u.path, '/');
  }

  /** The query follows scheme, authority and path, and splits off at the first '?'. */
  lemma QueryRecovered(u: Url)
    requires Truthy(u.query) && !Truthy(u.fragment)
    requires '?' !in u.scheme && '?' !in u.username && '?' !in u.password && '?' !in u.host && '?' !in u.path
    ensures ExplodeOnce("?", Get(u)) == [Base(u), u.query]
  {
    BaseFree(u, '?');
    CharSepFree('?', Base(u));
    assert Get(u) == Base(u) + "?" + u.query;
    ExplodeOnceAfter("?", Base(u), u.query);
  }

  /** The fragment comes last, and splits off at the first '#'. */
  lemma FragmentRecovered(u: Url)
    requires Truthy(u.fragment)
    requires '#' !in u.scheme && '#' !in u.username && '#' !in u.password && '#' !in u.host && '#' !in u.path && '#' !in u.query
    ensures ExplodeOnce("#", Get(u)) == [Base(u) + Part("?", u.query), u.fragment]
  {
    BaseFree(u, '#');
    var before := Base(u) + Part("?", u.query);
    assert '#' !in before;
    CharSepFree('#', before);
    assert Get(u) == before + "#" + u.fragment;
    ExplodeOnceAfter("#", before, u.fragment);
  }
}
