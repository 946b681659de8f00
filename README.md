# neat-php/http core, modelled in Dafny

A model of the central pieces of the PHP library neat-php/http, with proofs of their properties:

- **Router**: a segment trie. A path is split on `/`, and falsy segments (`""` and `"0"`) are dropped. Each node holds one handler per HTTP method and three kinds of child:
  - literal segments;
  - `$name[:regex]` variables, kept in insertion order;
  - a single `*` wildcard.

  Registration walks the tree and creates missing children. `in()` gives a sub-router. Matching is a backtracking search: the literal child first, then each variable in order, then the wildcard. The method is resolved afterwards: the exact (uppercased) name first, then `ANY`.
- **Headers**: an ordered map that ignores the case of header names. Setting a name that is already present removes the old entry and appends the new one under the new spelling. Also covered: the single-field `Header` value and `Header::capture`.
- **Header codecs**:
  - `Authorization`: `type credentials`;
  - `Content-Type`: media type, charset and boundary;
  - `Content-Disposition`: disposition, filename and field name;
  - `Content-Length`.
- **Status**: the reason-phrase table and the status line.
- **Url**: the string-based URL value. Covered are its serialisation, the elision of default ports, and the `with*` copies.
- **Upload**: the state machine for moving an uploaded file.
- **Input**: the request input store. Covered are source selection and merging, custom filter registration, the filter chain and error aggregation.

Modules:

| Module | What it holds |
|---|---|
| `Wrappers` | `Option`, `Result` |
| `PhpString` | PHP string helpers: truthiness, ASCII `strtolower`/`strtoupper`, `explode` with and without a limit, `implode`, the `trim` family, `strpos`/`stripos` at 0 |
| `Decimal` | integer text, and PHP's canonical-integer-string test |
| `PhpArray` | ordered PHP arrays as sequences of key/value pairs. `$a[$k] = $v` keeps an existing key's position and appends a new one. Also `unset`, `array_merge` with renumbering of integer keys, and PHP's normalisation of integer-like string keys |
| `Router` | the router |
| `RouterScenarios` | the router built and matched exactly as the repository's router tests do |
| `Header`, `Headers` | a single header field, and the header map |
| `HeaderParams` | the parameter scan shared by the Content-Type and Content-Disposition readers |
| `Authorization`, `ContentType`, `ContentDisposition`, `ContentLength` | the header codecs |
| `Status`, `Url` | the status line and the URL value |
| `Upload`, `Input` | the upload and the input store |

How each part is modelled:

- **Pure code is pure.** Router, Status, Url and the codecs' `write` are datatypes and functions.
- **Code that changes state is imperative.** `Headers`, `Upload` and `Input` are classes with `modifies` clauses. Their loops are `while` loops proved against specification functions:
  - the constructor and `lines()` of Headers;
  - the parameter loop of the Content-Type and Content-Disposition readers;
  - `Header::capture`;
  - the filter chain of Input.
- **A codec reads one header value.** `Message::header()` hands a codec's `read()` the first value of the header, or null when the header is absent (classes/Message.php:71-81). Each `Read` is therefore a function of `Option<string>`.
- **Outside calls are parameters:**
  - the regex test of a variable constraint is `matches(pattern, segment)`;
  - the upload mover is a function of the current path and the destination;
  - file existence and file size are constructor arguments;
  - the request's arrays per source are a function from source name to array;
  - PHP's function table for filters is a function of name, value and parameters.

The model states three consequences of the code that a reader may not expect:

- An empty remaining path resolves to the node reached, whether or not it has handlers (classes/Router.php:283-285). So with `/partial/path` and `/*` registered, `GET /partial` raises MethodNotAllowed. Here the code and the repository's tests disagree: the test at tests/RouterTest.php:79-88 expects the wildcard handler, and the model follows the code. The model proves the MethodNotAllowed outcome (`RouterScenarios.PartialIsNotAllowed`).
- For the same reason, `GET /arg` raises MethodNotAllowed when only `/arg/*` is registered: a wildcard never takes zero segments (`RouterScenarios.MatchArgAlone`).
- `filter()` writes `$value = &$this->data[$var] ?? null`. This binds the reference first and applies `??` afterwards, so filtering a missing variable appends a null entry for it. `Input.Input.Filter` states this.

## Model

| member | source | states |
|---|---|---|
| Router.Filter | classes/Router.php:211 | every segment kept is truthy and comes from the exploded path |
| Router.Split | classes/Router.php:209-212 | `split`: `explode` on "/" with the falsy pieces dropped; its properties are the Split lemmas below |
| Router.FilterConcat | classes/Router.php:211 | dropping falsy pieces distributes over concatenation |
| Router.SplitSegments | classes/Router.php:209-212 | split yields truthy segments without "/" |
| Router.SplitConcat | classes/Router.php:209-212 | a "/" separates the segments of the text on either side |
| Router.SplitRoot | classes/Router.php:209-212 | "" and "/" both split to no segments (the root) |
| Router.SplitNormalises | classes/Router.php:209-212 | leading, trailing and doubled slashes do not change the segments |
| Router.SplitImplode | classes/Router.php:209-212 | joining truthy slash-free segments with "/" and splitting again gives them back |
| Router.KindOf | classes/Router.php:89-112 | `isWildcard`, `isVariable` and `isLiteral` as one classification: "*" is the wildcard, a truthy segment starting with `$` a variable, anything else a literal |
| Router.VariableName | classes/Router.php:58-60 | the name captured by `^\$([^:]+)`: the text after `$` up to the first ':', when non-empty; the lemmas below state its values |
| Router.VariableConstraint | classes/Router.php:58-60 | the optional second capture `(?::(.*))`: the text after the first ':' of a named segment |
| Router.VariableWithoutConstraint | classes/Router.php:54-61 | `$name` is a variable named `name` with no constraint |
| Router.VariableWithConstraint | classes/Router.php:54-61 | `$name:rx` is named `name` with constraint `rx`, which may itself contain ':' |
| Router.VariableUnnamed | classes/Router.php:58-61 | a segment that does not fit `$name[...]` has neither name nor constraint |
| Router.MatchesSegment | classes/Router.php:261-272 | `matchesSegment`: a wildcard accepts anything, a variable what its constraint accepts (everything without one), a literal only itself |
| Router.WellFormed | classes/Router.php:230-238 | the invariant registration keeps: each child sits in the slot of its kind under its own segment, variables with distinct keys |
| Router.Locate | classes/Router.php:226-228 | where a segment's child is found: literals first, then variables, then the wildcard for "*" only; none otherwise |
| Router.Map | classes/Router.php:220-253 | `map` then `method`: walk the segments up to the first falsy one, creating missing children, and set the handler on the last node; proved about by MapFind, MapFrame, MapCommute, MapOverride and MapWellFormed |
| Router.Find | classes/Router.php:220-241 | the node `map` would return, without creating anything; tied to Map by MapFind and MapExisting |
| Router.Route | classes/Router.php:220-253 | after registering, the path's node exists and holds the handler under the method; the tree stays well formed |
| Router.RouteGet | classes/Router.php:120-123 | the path's node holds the handler under GET |
| Router.RoutePost | classes/Router.php:131-134 | the path's node holds the handler under POST |
| Router.RoutePut | classes/Router.php:142-145 | the path's node holds the handler under PUT |
| Router.RoutePatch | classes/Router.php:153-156 | the path's node holds the handler under PATCH |
| Router.RouteDelete | classes/Router.php:164-167 | the path's node holds the handler under DELETE |
| Router.RouteAny | classes/Router.php:175-190 | the path's node holds the handler under ANY, also through `controller` |
| Router.In | classes/Router.php:198-201 | the sub-router is the node at the split path; walking to it again changes nothing |
| Router.RouteIn | classes/Router.php:198-201 | registering through a sub-router: `map` of the sub-router's path followed by the split path; InThenRoute and SubRouterShared state its meaning |
| Router.LocateStore | classes/Router.php:230-238 | a stored child is found again in the same slot |
| Router.LocateOther | classes/Router.php:230-238 | storing one child leaves the lookup of every other segment unchanged |
| Router.StoreTwice | classes/Router.php:230-238 | storing twice under one segment keeps the last child |
| Router.MapFind | classes/Router.php:220-253 | `map` ends at the node `in` reaches, with the handler entry added |
| Router.MapExisting | classes/Router.php:222-241 | walking an existing path creates nothing |
| Router.MapFresh | classes/Router.php:230-239 | a path that did not exist ends at a fresh node with no handlers and no children |
| Router.FreshFind | classes/Router.php:230-241 | below a fresh node, `map` builds a chain of fresh nodes |
| Router.RouteSetsHandler | classes/Router.php:250-253 | registering sets exactly one handler on the node and keeps its others |
| Router.MapFrame | classes/Router.php:220-253 | registering one path leaves every other existing path's handlers unchanged |
| Router.MapCommute | classes/Router.php:250-253 | handlers for two different methods on one path give the same tree in either order |
| Router.MapOverride | classes/Router.php:250-253 | registering a method on a path again replaces its handler and changes nothing else: the tree equals the one with only the second registration |
| Router.MapTwice | classes/Router.php:198-241 | walking a path and then registering on it is the same as registering on it |
| Router.InThenRoute | classes/Router.php:198-201 | `in(p)` then registering `q` equals registering `p/q` on the root |
| Router.SubRouterShared | classes/Router.php:198-201 | the sub-router's node is shared: registering `p/q` on the root changes it as registering `q` on it would |
| Router.InRoot | classes/Router.php:220-224 | `in("")` and `in("/")` return the router itself |
| Router.MapWellFormed | classes/Router.php:230-238 | registration files each new child by its kind, so the tree stays well formed |
| Router.PutVariablesWellFormed | classes/Router.php:235 | adding a variable child keeps the variable list well formed and its keys distinct |
| Router.Positional | classes/Router.php:305-309 | the wildcard's parameters are the remaining segments numbered from 0 |
| Router.MatchMethod | classes/Router.php:321-326 | the handler for the method when there is one, else the one for ANY, else none |
| Router.MatchPath | classes/Router.php:281-313 | `matchPath`: the literal child first, then the variables in order, then the wildcard with the remaining path; the lemmas below state each of these |
| Router.MatchVariables | classes/Router.php:294-304 | the `foreach` over the variables: the first that accepts the segment and whose subtree matches binds its name to the segment |
| Router.Match | classes/Router.php:337-352 | `match`: RouteNotFound when no node matches, MethodNotAllowed when the node has no handler for the uppercased method or ANY, else the handler and parameters |
| Router.FirstVariableWins | classes/Router.php:294-304 | variables are tried in insertion order; the first whose constraint holds and whose subtree matches wins and binds its name to the segment |
| Router.NoVariableSucceeds | classes/Router.php:294-304 | when no variable succeeds, the variables yield nothing |
| Router.LiteralFirst | classes/Router.php:288-293 | a literal child whose subtree matches decides the result |
| Router.WildcardLast | classes/Router.php:305-310 | when literal and variables fail, the wildcard takes the whole remaining path as positional parameters |
| Router.WildcardCatchesAll | classes/Router.php:305-310 | a node with a wildcard child matches every path |
| Router.NotFoundWhen | classes/Router.php:283-312 | no match exactly when the path is non-empty and no literal, variable or wildcard child can take it |
| Router.FirstSucceeding | classes/Router.php:294-304 | some succeeding variable makes the variable search succeed |
| Router.ParametersFromPath | classes/Router.php:281-313 | parameter keys are distinct and every value is a segment of the path |
| Router.VariableParametersFromPath | classes/Router.php:298-300 | the same for the bindings collected through variables |
| Router.LiteralPathMatches | classes/Router.php:283-293 | along literal children, the match ends at the path's node with no parameters |
| Router.MapLiteralPath | classes/Router.php:226-241 | registering literal segments makes a literal path |
| Router.LiteralRouteMatches | classes/Router.php:337-352 | a registered literal route is matched by its own path, with its handler and no parameters |
| Router.MatchIgnoresMethodCase | classes/Router.php:346 | the method is uppercased before lookup |
| RouterScenarios.RouteIsMap | classes/Router.php:120-178 | a registration is `map` of the split path followed by `method` |
| RouterScenarios.MapNewLiteral | classes/Router.php:226-241 | a new literal segment adds one literal child built from the rest |
| RouterScenarios.MapOldLiteral | classes/Router.php:226-241 | an existing literal child is reused |
| RouterScenarios.MapNewVariable | classes/Router.php:234-235 | a new variable segment is appended to the variables |
| RouterScenarios.MapNewWildcard | classes/Router.php:232-233 | "*" fills the wildcard slot |
| RouterScenarios.TestRouterTree | tests/RouterTest.php:20-35 | the test router's routes build exactly the expected tree |
| RouterScenarios.MatchTest | tests/RouterTest.php:41-126 | GET /test finds `test`; POST /test is not allowed |
| RouterScenarios.MatchTestNumber | tests/RouterTest.php:42-43 | GET /test/5 finds `test-id-number` with id => 5 (given `\d+` accepts "5") |
| RouterScenarios.MatchTestWord | tests/RouterTest.php:44-45 | GET /test/hello falls through `\d+` to `test-id-word` with id => hello |
| RouterScenarios.MatchTestTest | tests/RouterTest.php:46-50 | /test/test finds the handler of each of the five methods |
| RouterScenarios.MatchArg | tests/RouterTest.php:51-52 | GET /arg/bla/5 finds `test-arg` with parameters [bla, 5] |
| RouterScenarios.MatchArgLong | tests/RouterTest.php:53-54 | GET /arg/bla/5/and/more gives the four segments as parameters |
| RouterScenarios.MatchAny | tests/RouterTest.php:55-56 | /any finds `any-test` for every method |
| RouterScenarios.MatchNotFound | tests/RouterTest.php:125 | GET /hello-world is not found |
| RouterScenarios.MatchTestNotFound | tests/RouterTest.php:127 | GET /test/hello-world is not found (neither constraint accepts it) |
| RouterScenarios.MatchArgAlone | classes/Router.php:283-285 | GET /arg is not allowed: the wildcard takes no empty path |
| RouterScenarios.AnyAndGetOnRoot | tests/RouterTest.php:59-77 | ANY and GET on "/" give the same tree in either order |
| RouterScenarios.AnyVersusGet | tests/RouterTest.php:59-77 | GET on "/" finds test-get and POST finds test-any, in both registration orders |
| RouterScenarios.EmptySegmentsAB | tests/RouterTest.php:99-102 | the four spellings of a/b split identically |
| RouterScenarios.EmptySegmentsCD | tests/RouterTest.php:104-107 | the four spellings of c/d split identically |
| RouterScenarios.EmptySegmentsE | tests/RouterTest.php:109-111 | e, /e and //e split identically |
| RouterScenarios.Spellings | tests/RouterTest.php:90-117 | every spelling with extra slashes splits like the plain one |
| RouterScenarios.PartialRouterTree | tests/RouterTest.php:81-83 | the tree built by /partial/path and /* |
| RouterScenarios.PartialIsNotAllowed | classes/Router.php:283-285 | /partial, /partial/ and partial end at the handler-less node and are not allowed |
| RouterScenarios.PartialOtherIsWildcard | classes/Router.php:288-310 | /other goes to the wildcard with [other]; /partial/path finds its own handler |
| Header.Line | classes/Header.php:47-50 | the line is the name, ": ", then the value |
| Header.ToString | classes/Header.php:37-40 | a field renders as its line |
| Header.Name | classes/Header.php:57-60 | the name given to the constructor: the field built from it and the value is the original one; the line starts with it |
| Header.Value | classes/Header.php:67-70 | the value given to the constructor: the field built from the name and it is the original one; the line ends with it |
| Header.LineParses | classes/Header.php:47-50 | for a name without ':', the line splits back into the name and " " + value |
| Header.Capture | classes/Header.php:78-87 | the loop builds the captured array of the fold |
| Header.CaptureEmpty | classes/Header.php:80-86 | capturing no entries gives an empty array |
| Header.CapturedGet | classes/Header.php:82-84 | names differing only in case collapse onto one key, which holds the last of them |
| Header.CapturedKeys | classes/Header.php:82-84 | keys are distinct and lowercase, each the lowercase of the name its field keeps |
| Header.Captured | classes/Header.php:78-87 | the captured array as a fold: `$captured[strtolower($name)] = new Header($name, $value)` for each entry in order; CapturedGet and CapturedKeys state its meaning |
| Header.Fields | classes/Header.php:84 | each entry becomes a field with its original name and value |
| Headers.Folded | classes/Headers.php:98-103 | a value is found exactly when some entry has that lowercased name |
| Headers.Without | classes/Headers.php:113-115 | removal keeps only entries with another lowercased name |
| Headers.Assigned | classes/Headers.php:111-119 | the entries after `set`: the entry with the same lowercased name goes and the new one is appended; AssignedFolded, AssignedReplaces and AssignedDistinct state its meaning |
| Headers.WithoutNone | classes/Headers.php:113-115 | removing an absent name changes nothing |
| Headers.WithoutConcat | classes/Headers.php:113-115 | removal distributes over concatenation |
| Headers.WithoutOne | classes/Headers.php:113-115 | with distinct lowercased names, removal drops exactly the one matching entry |
| Headers.WithoutDistinct | classes/Headers.php:113-115 | removal keeps names distinct and leaves none with the removed name |
| Headers.FoldedWithout | classes/Headers.php:113-115 | removal leaves every other name's value |
| Headers.FoldedAppend | classes/Headers.php:117 | appending an entry adds its value only for a new name |
| Headers.AssignedFolded | classes/Headers.php:111-119 | after set(n, v), get(m) is v when lower(m) == lower(n), and unchanged otherwise |
| Headers.AssignedReplaces | classes/Headers.php:113-118 | re-setting removes the old entry and appends the new one at the end; the others keep their order |
| Headers.AssignedAppends | classes/Headers.php:117 | setting a new name appends it |
| Headers.AssignedDistinct | classes/Headers.php:111-119 | set keeps lowercased names distinct |
| Headers.UnsetIsWithout | classes/Headers.php:114 | unsetting the registered spelling removes every entry with that lowercased name |
| Headers.LinesOf | classes/Headers.php:56-64 | one line per entry |
| Headers.CrlfConcat | classes/Headers.php:44-49 | rendering distributes over concatenation of lines |
| Headers.CrlfEnds | classes/Headers.php:44-49 | a non-empty rendering ends with CRLF |
| Headers.Headers.constructor | classes/Headers.php:32-37 | the map is the constructor's entries set one after another |
| Headers.Headers.Set | classes/Headers.php:111-119 | the entries and the name registry after set, with the invariant kept |
| Headers.Headers.NameRegistered | classes/Headers.php:117-118 | every registered name has its entry |
| Headers.Headers.Get | classes/Headers.php:98-103 | the value stored under the name, ignoring case, else the default (null when none is given) |
| Headers.Headers.Has | classes/Headers.php:82-88 | true exactly when the name is present and its value is truthy (not "" or "0") |
| Headers.Headers.All | classes/Headers.php:71-74 | the entries have distinct names, ignoring case, and their number is count() |
| Headers.Headers.Count | classes/Headers.php:126-129 | the number of entries is the number of distinct lowercased names |
| Headers.Headers.Lines | classes/Headers.php:56-64 | "name: value" for each entry, in insertion order |
| Headers.Headers.ToString | classes/Headers.php:44-49 | every line followed by CRLF; an empty map gives "" |
| Headers.AssignedAllDistinct | classes/Headers.php:32-37 | a constructed map has distinct lowercased names |
| Headers.SizeOfLowered | classes/Headers.php:126-129 | with distinct lowercased names, there are as many of them as entries |
| Headers.FoldedKeys | classes/Headers.php:117 | distinct lowercased names imply distinct keys |
| Headers.FoldedGet | classes/Headers.php:98-103 | looking up the registered spelling finds the value for any casing |
| Headers.FoldedAt | classes/Headers.php:98-103 | each entry's value is found under its lowercased name |
| Headers.AssignedNames | classes/Headers.php:111-119 | set keeps entries and registry corresponding one-to-one |
| Headers.RegistryCovers | classes/Headers.php:117-118 | the registry's keys are exactly the lowercased names of the entries |
| Status.New | classes/Status.php:92-96 | a given reason is kept verbatim, even when empty; otherwise the table's reason, else "Unknown" |
| Status.Code | classes/Status.php:113-116 | the constructor's code, unchanged |
| Status.Reason | classes/Status.php:123-126 | the resolved reason, unchanged |
| Status.ToString | classes/Status.php:103-106 | the decimal code, one space, the reason; the code parses back |
| Status.DefaultsFollowRfc7231 | classes/Status.php:15-74 | for all 41 codes of the overview in section 6.1 of RFC 7231, the default reason is the RFC's phrase |
| Status.UnknownDefault | classes/Status.php:95-106 | a code without a table entry reads "<code> Unknown" |
| Status.UnusedCodes | classes/Status.php:15-74 | 306, 999 and 0 have no entry |
| Status.Reasons | classes/Status.php:15-74 | the `REASONS` table, split by class; DefaultsFollowRfc7231 and UnusedCodes state its contents |
| Url.Port | classes/Url.php:184-194 | null for 80 with http and 443 with https, else the stored port |
| Url.UserInfo | classes/Url.php:234-237 | the username, then ":" and the password when the password is truthy; UserInfoParses states that it splits back |
| Url.HostPort | classes/Url.php:238-245 | the host, then ":" and the port when `port()` is truthy; HostPortParses states that it splits back |
| Url.Authority | classes/Url.php:232-248 | `authority()`: the bare host when it is falsy, else the user info and "@" when truthy, then host and port; AuthorityParses states that it splits back |
| Url.Get | classes/Url.php:95-115 | `get()`: scheme, authority, path, query and fragment, each written only when truthy; the lemmas below state what can be recovered from it |
| Url.UserInfoParses | classes/Url.php:236-239 | the user info splits back into username and, when truthy, password |
| Url.HostPortParses | classes/Url.php:240-246 | host and truthy non-default port split back apart |
| Url.AuthorityParses | classes/Url.php:232-248 | a falsy host gives the bare host; otherwise a truthy user info comes first, before '@' |
| Url.WithScheme | classes/Url.php:256-262 | a copy differing only in the scheme, which is the argument lowercased with its trailing ':' characters dropped |
| Url.WithUserInfo | classes/Url.php:271-278 | a copy differing only in username and password |
| Url.WithHost | classes/Url.php:286-292 | a copy differing only in the host, which is the argument lowercased |
| Url.WithPort | classes/Url.php:301-311 | refused exactly for ports below 0 or above 65536; otherwise a copy differing only in the port; null is accepted |
| Url.WithPath | classes/Url.php:319-325 | a copy differing only in the path |
| Url.WithQuery | classes/Url.php:333-339 | a copy differing only in the query |
| Url.WithFragment | classes/Url.php:347-353 | a copy differing only in the fragment |
| Url.WithSchemeIdempotent | classes/Url.php:256-262 | normalising a normalised scheme changes nothing |
| Url.WithHostIdempotent | classes/Url.php:286-292 | lowercasing a lowercased host changes nothing |
| Url.DefaultPortElided | classes/Url.php:184-194 | the scheme's default port is never written |
| Url.PathSlashes | classes/Url.php:105-107 | leading slashes of the path do not matter: exactly one is written |
| Url.EmptyUrl | classes/Url.php:95-115 | a URL with every component empty is "" |
| Url.BaseFree | classes/Url.php:95-107 | scheme, authority and path hold no character that none of their components holds |
| Url.QueryRecovered | classes/Url.php:95-115 | the query follows the rest and splits off at the first '?' |
| Url.FragmentRecovered | classes/Url.php:95-115 | the fragment comes last and splits off at the first '#' |
| Authorization.AuthType | classes/Header/Authorization.php:50-53 | the stored type |
| Authorization.Credentials | classes/Header/Authorization.php:74-77 | the stored credentials |
| Authorization.Write | classes/Header/Authorization.php:83-86 | the type, one space, the credentials |
| Authorization.Read | classes/Header/Authorization.php:92-110 | a result comes from a present value with a known type, and is that value split at its first space |
| Authorization.ReadAbsent | classes/Header/Authorization.php:94-97 | no header, no authorization |
| Authorization.ReadWithoutSpace | classes/Header/Authorization.php:99-102 | a value without a space is refused |
| Authorization.ReadUnknownType | classes/Header/Authorization.php:104-107 | a type other than Basic or Bearer is refused |
| Authorization.ReadAccepts | classes/Header/Authorization.php:99-109 | read exactly when a known type is followed by a space; the credentials may hold more spaces |
| Authorization.ReadAt | classes/Header/Authorization.php:99-109 | a known type ending at a space is read |
| Authorization.RoundTrip | classes/Header/Authorization.php:83-110 | reading what was written for a known type gives the type and credentials back |
| Authorization.ReadWrite | classes/Header/Authorization.php:83-110 | what is read writes back to the same value |
| Authorization.TypeTests | classes/Header/Authorization.php:58-69 | an authorization is never both Basic and Bearer, and its type is one `read()` accepts exactly when one of the tests holds (the tests themselves are the definitions of IsBasic and IsBearer) |
| Authorization.IsBasic | classes/Header/Authorization.php:58-61 | `isBasic()`: the type is Basic; TypeTests states it |
| Authorization.IsBearer | classes/Header/Authorization.php:66-69 | `isBearer()`: the type is Bearer; TypeTests states it |
| ContentLength.Length | classes/Header/ContentLength.php:19-30 | the constructor's length |
| ContentLength.Write | classes/Header/ContentLength.php:35-38 | the decimal text of the length, which parses back to it |
| ContentLength.Read | classes/Header/ContentLength.php:43-51 | null when absent; an integer string within the range of a 64-bit `int` gives its value; anything else, including an integer beyond that range, is refused |
| ContentLength.RoundTrip | classes/Header/ContentLength.php:35-51 | every length written reads back unchanged |
| ContentLength.WriteRead | classes/Header/ContentLength.php:35-51 | a canonical integer string within the range of `int` reads and writes back to itself; one beyond it is refused |
| ContentLength.ReadBeyondLong | classes/Header/ContentLength.php:19-51 | the text of an integer outside the 64-bit range is refused: the constructor's `int` parameter cannot take it |
| HeaderParams.Second | classes/Header/ContentType.php:138-142 | `list(, $x) = explode('=', $part)`: a second piece exists exactly when the part holds '=' |
| HeaderParams.SecondValue | classes/Header/ContentType.php:138-142 | that second piece is the text right after the first '=', free of '=', running to the end of the part or to the next '=' |
| HeaderParams.ScanLoop | classes/Header/ContentType.php:137-145 | the loop leaves the values of the fold |
| HeaderParams.LastNamed | classes/Header/ContentType.php:137-145 | the last piece with the name (skipping pieces taken by the first name) and no later one |
| HeaderParams.ScanLast | classes/Header/ContentType.php:137-145 | each value from the last piece carrying its name; a piece matching the first name is never taken for the second |
| HeaderParams.NoSeparatorJoined | classes/Header/ContentType.php:131 | pieces free of "; " stay free of it when joined, unless the join writes one |
| HeaderParams.SplitJoined | classes/Header/ContentType.php:131 | pieces free of "; " joined by "; " split back into exactly those pieces |
| HeaderParams.SecondOf | classes/Header/ContentType.php:138 | `name=value` without '=' in either gives value |
| HeaderParams.NoSemicolon | classes/Header/ContentType.php:131 | text without ';' holds no "; " |
| HeaderParams.ParameterFree | classes/Header/ContentType.php:110-115 | a written parameter holds no "; " when its value holds none |
| HeaderParams.Implode3 | classes/Header/ContentType.php:106-117 | joining three pieces |
| ContentType.MediaType | classes/Header/ContentType.php:54-57 | the stored media type |
| ContentType.Charset | classes/Header/ContentType.php:62-65 | the stored charset |
| ContentType.Boundary | classes/Header/ContentType.php:70-73 | the stored boundary |
| ContentType.Write | classes/Header/ContentType.php:106-117 | `write()`: the media type, then "; charset=..." and "; boundary=..." when truthy; RoundTrip and JoinedPieces state its meaning |
| ContentType.Read | classes/Header/ContentType.php:123-147 | null exactly when absent; the media type is the text before the first "; " |
| ContentType.ReadHeader | classes/Header/ContentType.php:123-147 | the source's loop computes the same reading |
| ContentType.ReadLastWins | classes/Header/ContentType.php:137-145 | charset and boundary come from the last piece starting, case-sensitively, with their name |
| ContentType.ReadWithoutParameters | classes/Header/ContentType.php:131-146 | a bare media type has neither charset nor boundary |
| ContentType.RoundTrip | classes/Header/ContentType.php:106-147 | reading what was written gives it back, for values free of "; " and '=' that are null or truthy |
| ContentType.PiecesFree | classes/Header/ContentType.php:106-117 | no written piece holds "; " |
| ContentType.JoinedPieces | classes/Header/ContentType.php:106-117 | the written value is the pieces joined by "; " |
| ContentType.ScanPieces | classes/Header/ContentType.php:137-145 | scanning the written parameters finds charset and boundary |
| ContentDisposition.Disposition | classes/Header/ContentDisposition.php:76-79 | the stored disposition |
| ContentDisposition.Filename | classes/Header/ContentDisposition.php:84-87 | the stored filename |
| ContentDisposition.Fieldname | classes/Header/ContentDisposition.php:92-95 | the stored field name |
| ContentDisposition.Write | classes/Header/ContentDisposition.php:128-139 | `write()`: the disposition, then the quoted filename and name when truthy; RoundTrip and JoinedPieces state its meaning |
| ContentDisposition.Unquote | classes/Header/ContentDisposition.php:169-170 | `trim($x, '"')` of a value that was found, null otherwise; QuotesTrimmed states its meaning |
| ContentDisposition.Read | classes/Header/ContentDisposition.php:145-172 | null exactly when absent; the disposition is the text before the first "; " |
| ContentDisposition.ReadHeader | classes/Header/ContentDisposition.php:145-172 | the source's loop computes the same reading |
| ContentDisposition.ReadLastWins | classes/Header/ContentDisposition.php:156-165 | filename and name come from the last piece starting, ignoring case, with their name; a filename piece is never the field name |
| ContentDisposition.ReadWithoutParameters | classes/Header/ContentDisposition.php:152-171 | a bare disposition has neither filename nor field name |
| ContentDisposition.QuotesTrimmed | classes/Header/ContentDisposition.php:169-170 | trimming quotes off a quoted value gives the value |
| ContentDisposition.UnquotedFilename | classes/Header/ContentDisposition.php:152-171 | an unquoted `filename=F` reads as F |
| ContentDisposition.TwoPieces | classes/Header/ContentDisposition.php:152 | a disposition and one parameter split into two pieces |
| ContentDisposition.FilenameScan | classes/Header/ContentDisposition.php:156-160 | a filename piece sets the filename only |
| ContentDisposition.NamedFilename | classes/Header/ContentDisposition.php:157 | a `filename=` piece starts with "filename" |
| ContentDisposition.NamedName | classes/Header/ContentDisposition.php:157-161 | a `name=` piece starts with "name" and not with "filename" |
| ContentDisposition.RoundTrip | classes/Header/ContentDisposition.php:128-172 | reading what was written gives it back, for values free of "; ", '=' and edge quotes |
| ContentDisposition.QuotedFree | classes/Header/ContentDisposition.php:130-135 | a quoted value holds neither "; " nor '=' when the value holds neither |
| ContentDisposition.PiecesFree | classes/Header/ContentDisposition.php:128-139 | no written piece holds "; " |
| ContentDisposition.JoinedPieces | classes/Header/ContentDisposition.php:128-139 | the written value is the pieces joined by "; " |
| ContentDisposition.ScanPieces | classes/Header/ContentDisposition.php:156-165 | scanning the written parameters finds filename and name |
| ContentDisposition.ScanBoth | classes/Header/ContentDisposition.php:156-170 | a written filename piece followed by a name piece reads back as both values, unquoted |
| ContentDisposition.ScanFilenameOnly | classes/Header/ContentDisposition.php:156-170 | a written filename piece alone reads back as the filename, with no name |
| ContentDisposition.ScanNameOnly | classes/Header/ContentDisposition.php:156-170 | a written name piece alone reads back as the name, with no filename |
| ContentDisposition.ScanSingle | classes/Header/ContentDisposition.php:156-165 | a single piece sets the slot its name selects |
| ContentDisposition.ScanFilenameName | classes/Header/ContentDisposition.php:156-165 | a filename piece then a name piece set both slots |
| ContentDisposition.QuotedPiece | classes/Header/ContentDisposition.php:156-170 | the quoted value of a written piece reads back unquoted |
| Upload.Upload.constructor | classes/Upload.php:53-66 | a falsy path or missing file forces UPLOAD_ERR_NO_FILE and keeps no path; otherwise path and size are kept; not moved |
| Upload.Upload.HasMoved | classes/Upload.php:94-97 | a moved upload is ok and has a path |
| Upload.Upload.Ok | classes/Upload.php:144-147 | `ok()`: the error is UPLOAD_ERR_OK; Error states which uploads are ok |
| Upload.Upload.Size | classes/Upload.php:104-107 | a size is only known for a found file |
| Upload.Upload.Error | classes/Upload.php:134-147 | no file means UPLOAD_ERR_NO_FILE; ok() iff the error is UPLOAD_ERR_OK |
| Upload.Upload.MoveTo | classes/Upload.php:73-87 | an upload with an error, or already moved, is refused without calling the mover; otherwise the mover is called once, and only its success moves the path and sets moved |
| Upload.MoveTwice | classes/Upload.php:78-80 | a second move is refused and the path stays at the first destination |
| Upload.MoveInvalid | classes/Upload.php:75-77 | an upload with an error, or without a file, is never moved and the mover is never called |
| Upload.MoveFails | classes/Upload.php:81-83 | a failing mover leaves the path and the moved flag as they were |
| Input.Message | classes/Input.php:63-66 | the two refusals give different messages: only the unknown-source one starts with "Unknown source: " |
| Input.MessageNamesUnknown | classes/Input.php:62-67 | the message of a refused `from()` names every unknown source it was given; an empty selection gets "Sources must not be empty" |
| Input.Unknown | classes/Input.php:62 | the names outside query, post, files and cookie |
| Input.Check | classes/Input.php:62-67 | accepted exactly when the sources are non-empty and all known; unknown names are reported, else emptiness |
| Input.Arrays | classes/Input.php:78-82 | the request's array for each selected source, in order |
| Input.LoadedLastWins | classes/Input.php:82 | a string-keyed variable takes its value from the last source that has it |
| Input.StepOf | classes/Input.php:146-147 | an entry split on ':': a string key names the filter and keeps every piece as a parameter; otherwise the first piece names it |
| Input.StepsOf | classes/Input.php:145-147 | one filter per entry, in order |
| Input.Indexed | classes/Input.php:138 | names from the string form are numbered 0, 1, ... |
| Input.Steps | classes/Input.php:137-147 | the filters to run: a falsy string names none, a string is exploded on "\|", each entry becomes a name and parameters |
| Input.Apply | classes/Input.php:148-152 | one filter: the registered one of that name first, else the PHP function, which reports no errors |
| Input.Run | classes/Input.php:145-160 | the chain: a filter returning errors stops it with them, one that nulls the value stops it with null; RunAppend and RunFunctions state its meaning |
| Input.Filtered | classes/Input.php:141-144 | a null or missing value runs no filter |
| Input.RunAppend | classes/Input.php:145-160 | the chain runs its front and then, unless the front stopped on errors or null, its back |
| Input.RunFunctions | classes/Input.php:148-152 | without registered filters there are no errors and each function is applied in turn |
| Input.CustomFirst | classes/Input.php:148 | a registered filter shadows the PHP function of the same name |
| Input.NamesAsList | classes/Input.php:137-139 | "a|b" names the same filters as ["a", "b"] |
| Input.FieldErrors | classes/Input.php:241-243 | `errors($field)`: the field's list, or none |
| Input.AllErrors | classes/Input.php:245 | `array_merge([], ...array_values($errors))`: the lists concatenated in field order; AllErrorsEmpty states when it is empty |
| Input.AllErrorsEmpty | classes/Input.php:245-257 | errors() is empty exactly when every field's list is |
| Input.ValidEverywhere | classes/Input.php:239-257 | with no errors at all, every field is valid |
| Input.FieldErrorsPut | classes/Input.php:154 | storing a field's errors replaces that field's list only |
| Input.Input.constructor | classes/Input.php:47-51 | every source is selected and loaded; no filters, no errors |
| Input.Input.From | classes/Input.php:60-71 | unknown or no sources are refused and nothing changes; otherwise the sources are selected and reloaded |
| Input.Input.Load | classes/Input.php:76-84 | the merged sources, with the errors flushed |
| Input.Input.All | classes/Input.php:89-92 | `all()`: the stored array |
| Input.Input.Has | classes/Input.php:100-103 | `has()`: the key exists, even with a null value |
| Input.Input.Get | classes/Input.php:100-114 | the value when the key exists, null when it does not |
| Input.Input.Register | classes/Input.php:122-125 | the filter under its name, replacing any before it |
| Input.Input.Filter | classes/Input.php:135-167 | the chain's value is returned and stored under the variable (a missing one gets a null entry); a filter's errors stop the chain and are stored for the variable |
| Input.Input.Errors | classes/Input.php:239-246 | a truthy field gives its own list or none; otherwise all lists concatenated in field order |
| Input.Input.IsValid | classes/Input.php:254-257 | `valid()`: the field has no errors, or none at all; ValidEverywhere relates the two |
| PhpString.ExplodeCharImplode | classes/Input.php:138 | pieces free of a character joined by it split back into those pieces, as a '\|'-separated filter list does |
| PhpString.ExplodeCharConcat | classes/Router.php:211 | splitting on one character at an occurrence of it splits the two sides apart |
| PhpString.ImplodeExplode | classes/Router.php:211 | joining the pieces of a split gives back the text |
| PhpString.Truthy | classes/Router.php:211 | PHP truthiness of a string: neither "" nor "0" |
| PhpString.Lower | classes/Url.php:288 | `strtolower`: ASCII letters lowercased, other characters kept; LowerIsLower states the result is lowercase |
| PhpString.Explode | classes/Router.php:211 | `explode`: the pieces between non-overlapping occurrences, at least one; ImplodeExplode states they join back |
| PhpString.ExplodeOnce | classes/Header/Authorization.php:99 | `explode($sep, $s, 2)`: split at the first occurrence only; ExplodeOnceAfter and ExplodeOncePieces state its pieces |
| PhpArray.PutGet | classes/Headers.php:117 | `$a[$k] = $v` makes `$a[$k]` v and leaves other keys alone; a new key is appended |
| PhpArray.Put | classes/Headers.php:117 | `$a[$k] = $v`: an existing key keeps its position, a new one is appended; PutGet states its meaning |
| PhpArray.Get | classes/Input.php:113 | `$a[$k] ?? null`: the value of the key, or none |
| PhpArray.MergeLastWins | classes/Input.php:82 | `array_merge` gives a string key the value of the last array that has it |
| PhpArray.Merge | classes/Input.php:82 | `array_merge`: string keys assigned in order, integer keys renumbered from 0; MergeLastWins states its meaning |
| PhpArray.KeyOfInjective | classes/Router.php:300 | distinct strings make distinct array keys |
| PhpArray.KeyOf | classes/Router.php:300 | an integer key exactly for a canonical integer string within the 64-bit range of `int`, whose text is that string; the string itself otherwise |
| Decimal.IntTextRoundTrip | classes/Status.php:105 | the decimal text of an integer parses back to it |

## Left out

- PCRE. A variable constraint's regex test is the parameter `matches`. Line-feed details of `$` in the name pattern at classes/Router.php:58 are not modelled. The router test scenarios assume only five answers of it (`RouterScenarios.PatternFacts`): `\d+` accepts "5" and rejects "hello" and "hello-world"; `\w+` accepts "hello" and rejects "hello-world".
- Handlers are opaque values, assumed truthy. A falsy handler (classes/Router.php:347) is not modelled.
- The loose `==` in `isLiteral`, `isWildcard` and `matchesSegment` (classes/Router.php:91, 111, 267) is treated as string equality. PHP 8 compares two numeric strings numerically, so "1" == "01"; this is not modelled.
- `Router::segment`, `isRoot`, `isLiteral`, `isVariable` and `isWildcard` are folded into `KindOf` and `Locate`, not separate members. Exceptions are the outcomes `RouteNotFound` and `MethodNotAllowed`.
- The by-reference `$arguments` of `matchPath` is modelled as a returned array. Failed branches never write it, so this is the same result.
- `Header::capture` and `Headers::capture` fall back to `apache_request_headers()`/`getallheaders()` when no array is given. That is host I/O; only the explicit-array form is modelled.
- PHP turns numeric header names into integer array keys. Header names are modelled as strings.
- `Url::set` (`parse_url`), `Url::capture` (`$_SERVER`), the Url constructor and the trivial component accessors (`scheme()` … `fragment()`) are not modelled.
- `Upload::capture` is not modelled: it reshapes `$_FILES` into nested arrays. `file_exists`, `filesize`, `rename` and `move_uploaded_file` are parameters. `Upload::moveTo` throwing is modelled as an `Outcome` value.
- `Input::bool`, `int`, `float`, `string`, `file` and the `$type` argument of `filter` are not modelled. They cast with `settype`, including floating point.
- Built-in filters are looked up by name through the function-table parameter. A name that is not a PHP function (an Error in PHP) is not modelled.
- A custom filter that returns a non-array truthy value, or an error list with string keys, is not modelled.
- Messages (`Message::header`, `withHeader`) and the PSR-7 layer are not modelled. Each codec's `read` takes the header's first value and `write` returns the header value.
- ContentLength.Read: a PHP `int` parameter in weak mode also takes numeric strings with surrounding whitespace, an exponent, or any fraction ("1.5" becomes 1, deprecated since PHP 8.1), and a string that merely begins with a number ("6abc", with a warning). The model accepts only an optional sign followed by digits, within the 64-bit range, and refuses the others as a TypeError.
- Input.Input.Filter: the source writes the variable through the reference after every filter. The model stores the final value once. No other code observes the value in between.
