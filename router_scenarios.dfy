/**
 * The routing tables of the router's test suite, built with the model's own
 * registration functions, and the outcomes of matching against them. The
 * constraints `\d+` and `\w+` enter only through what the regular-expression
 * oracle answers for the few segments involved.
 */
module RouterScenarios {
  import opened Wrappers
  import opened PhpString
  import opened PhpArray
  import opened Router

  // ---------------------------------------------------------------------------
  // Splitting concrete paths

  lemma SplitOne(a: string)
    requires Segments([a])
    ensures Split("/" + a) == [a] && Split(a) == [a]
  {
    SplitImplode([a]);
    SplitNormalises(a, "");
  }

  lemma SplitTwo(a: string, b: string)
    requires Segments([a, b])
    ensures Split("/" + a + "/" + b) == [a, b] && Split(a + "/" + b) == [a, b]
  {
    SplitImplode([a, b]);
    SplitNormalises(a + "/" + b, "");
    assert "/" + a + "/" + b == "/" + Implode("/", [a, b]);
  }

  lemma SplitThree(a: string, b: string, c: string)
    requires Segments([a, b, c])
    ensures Split("/" + a + "/" + b + "/" + c) == [a, b, c]
  {
    SplitImplode([a, b, c]);
    SplitNormalises(a + "/" + b + "/" + c, "");
    assert Implode("/", [a, b, c]) == a + "/" + Implode("/", [b, c]);
    assert "/" + a + "/" + b + "/" + c == "/" + Implode("/", [a, b, c]);
  }

  // ---------------------------------------------------------------------------
  // One level of registration, unfolded

  lemma MapNewLiteral(n: Node<string>, s: string, rest: seq<string>, e: Option<(string, string)>)
    requires Truthy(s) && KindOf(s) == Literal && s !in n.literals && Get(n.variables, s).None?
    ensures Map(n, [s] + rest, e) == n.(literals := n.literals[s := Map(NewNode(Some(s)), rest, e)])
  {
    assert ([s] + rest)[1..] == rest;
  }

  lemma MapOldLiteral(n: Node<string>, s: string, rest: seq<string>, e: Option<(string, string)>)
    requires Truthy(s) && s in n.literals
    ensures Map(n, [s] + rest, e) == n.(literals := n.literals[s := Map(n.literals[s], rest, e)])
  {
    assert ([s] + rest)[1..] == rest;
  }

  lemma MapOldPath(n: Node<string>, a: string, b: string, e: Option<(string, string)>)
    requires Truthy(a) && Truthy(b) && a in n.literals && b in n.literals[a].literals
    ensures Map(n, [a, b], e) == n.(literals := n.literals[a := n.literals[a].(literals :=
      n.literals[a].literals[b := SetHandler(n.literals[a].literals[b], e)])])
  {
    MapOldLiteral(n, a, [b], e);
    MapOldLiteral(n.literals[a], b, [], e);
  }

  lemma MapNewVariable(n: Node<string>, s: string, e: Option<(string, string)>)
    requires KindOf(s) == Variable && s !in n.literals && Get(n.variables, s).None?
    ensures Map(n, [s], e) == n.(variables := n.variables + [(s, SetHandler(NewNode(Some(s)), e))])
  {
    IndexOfNone(n.variables, s);
  }

  lemma MapNewWildcard(n: Node<string>, e: Option<(string, string)>)
    requires "*" !in n.literals && n.variables == [] && n.wildcard.None?
    ensures Map(n, ["*"], e) == n.(wildcard := Some(SetHandler(NewNode(Some("*")), e)))
  {
  }

  // ---------------------------------------------------------------------------
  // The main routing table

  const NumberId := "$id:\\d+"
  const WordId := "$id:\\w+"

  function Leaf(segment: string, handlers: map<string, string>): Node<string>
  {
    Node(Some(segment), handlers, map[], [], None)
  }

  /** The node for /test/test, with a handler for each of five methods. */
  function TestTest(): Node<string>
  {
    Leaf("test", map["GET" := "get-test-test", "POST" := "post-test-test", "PUT" := "put-test-test",
                     "PATCH" := "patch-test-test", "DELETE" := "delete-test-test"])
  }

  function TestNode(): Node<string>
  {
    Node(Some("test"), map["GET" := "test"], map["test" := TestTest()],
         [(NumberId, Leaf(NumberId, map["GET" := "test-id-number"])),
          (WordId, Leaf(WordId, map["GET" := "test-id-word"]))], None)
  }

  function ArgNode(): Node<string>
  {
    Node(Some("arg"), map[], map[], [], Some(Leaf("*", map["GET" := "test-arg"])))
  }

  function Expected(): Node<string>
  {
    Node(None, map[], map["test" := TestNode(), "arg" := ArgNode(), "any" := Leaf("any", map["ANY" := "any-test"])], [], None)
  }

  /** The routes of the test suite, registered in its order: /test and its two variables. */
  function TestRoutes(): Node<string>
  {
    RouteGet(RouteGet(RouteGet(Root(), "/test", "test"), "/test/" + NumberId, "test-id-number"), "/test/" + WordId, "test-id-word")
  }

  /** Then one handler per method on /test/test. */
  function TestGetPostRoutes(): Node<string>
  {
    RoutePost(RouteGet(TestRoutes(), "/test/test", "get-test-test"), "/test/test", "post-test-test")
  }

  function TestTestRoutes(): Node<string>
  {
    RouteDelete(RoutePatch(RoutePut(TestGetPostRoutes(), "/test/test", "put-test-test"),
      "/test/test", "patch-test-test"), "/test/test", "delete-test-test")
  }

  /** Then the wildcard under /arg and ANY on /any. */
  function TestRouter(): Node<string>
  {
    RouteAny(RouteGet(TestTestRoutes(), "/arg/*", "test-arg"), "/any", "any-test")
  }

  lemma RouteIsMap(n: Node<string>, verb: string, path: string, h: string, segs: seq<string>)
    requires Split(path) == segs
    ensures Route(n, verb, path, h) == Map(n, segs, Some((verb, h)))
  {
  }

  function T1(): Node<string> { Leaf("test", map["GET" := "test"]) }
  function T2(): Node<string> { T1().(variables := [(NumberId, Leaf(NumberId, map["GET" := "test-id-number"]))]) }
  function T3(): Node<string> { T2().(variables := T2().variables + [(WordId, Leaf(WordId, map["GET" := "test-id-word"]))]) }
  function T4(): Node<string> { T3().(literals := map["test" := Leaf("test", map["GET" := "get-test-test"])]) }
  function Top(t: Node<string>): Node<string> { Root<string>().(literals := map["test" := t]) }
  function WithTest(verbs: map<string, string>): Node<string> { Top(T3().(literals := map["test" := Leaf("test", verbs)])) }

  lemma Step1()
    ensures Map(Root(), ["test"], Some(("GET", "test"))) == Top(T1())
  {
    MapNewLiteral(Root(), "test", [], Some(("GET", "test")));
  }

  lemma Step2()
    ensures Map(Top(T1()), ["test", NumberId], Some(("GET", "test-id-number"))) == Top(T2())
  {
    assert ["test", NumberId] == ["test"] + [NumberId];
    MapOldLiteral(Top(T1()), "test", [NumberId], Some(("GET", "test-id-number")));
    MapNewVariable(T1(), NumberId, Some(("GET", "test-id-number")));
    var e := Some(("GET", "test-id-number"));
    assert Map(T1(), [NumberId], e) == T2();
    assert Map(Top(T1()), ["test", NumberId], e) == Top(T1()).(literals := Top(T1()).literals["test" := T2()]);
    assert Top(T1()).literals["test" := T2()] == map["test" := T2()];
  }

  lemma Step3()
    ensures Map(Top(T2()), ["test", WordId], Some(("GET", "test-id-word"))) == Top(T3())
  {
    MapOldLiteral(Top(T2()), "test", [WordId], Some(("GET", "test-id-word")));
    IndexOfNone(T2().variables, WordId);
    MapNewVariable(T2(), WordId, Some(("GET", "test-id-word")));
  }

  lemma Step4()
    ensures Map(Top(T3()), ["test", "test"], Some(("GET", "get-test-test"))) == WithTest(map["GET" := "get-test-test"])
  {
    MapOldLiteral(Top(T3()), "test", ["test"], Some(("GET", "get-test-test")));
    IndexOfNone(T3().variables, "test");
    MapNewLiteral(T3(), "test", [], Some(("GET", "get-test-test")));
  }

  lemma StepVerb(verbs: map<string, string>, verb: string, h: string)
    ensures Map(WithTest(verbs), ["test", "test"], Some((verb, h))) == WithTest(verbs[verb := h])
  {
    MapOldPath(WithTest(verbs), "test", "test", Some((verb, h)));
    var t := T3().(literals := map["test" := Leaf("test", verbs)]);
    assert t.literals["test" := Leaf("test", verbs[verb := h])] == map["test" := Leaf("test", verbs[verb := h])];
    assert WithTest(verbs).literals["test" := t.(literals := map["test" := Leaf("test", verbs[verb := h])])]
      == map["test" := t.(literals := map["test" := Leaf("test", verbs[verb := h])])];
  }

  function R8(): Node<string> { Top(TestNode()) }
  function R9(): Node<string> { R8().(literals := R8().literals["arg" := ArgNode()]) }

  lemma Step9()
    ensures Map(R8(), ["arg", "*"], Some(("GET", "test-arg"))) == R9()
  {
    IndexOfNone(R8().variables, "arg");
    MapNewLiteral(R8(), "arg", ["*"], Some(("GET", "test-arg")));
    MapNewWildcard(NewNode(Some("arg")), Some(("GET", "test-arg")));
  }

  lemma Step10()
    ensures Map(R9(), ["any"], Some(("ANY", "any-test"))) == Expected()
  {
    IndexOfNone(R9().variables, "any");
    MapNewLiteral(R9(), "any", [], Some(("ANY", "any-test")));
  }

  lemma SplitTest() ensures Split("/test") == ["test"]
  {
    assert "/test" == "/" + "test";
    SplitOne("test");
  }

  lemma SplitAny() ensures Split("/any") == ["any"]
  {
    assert "/any" == "/" + "any";
    SplitOne("any");
  }

  lemma SplitTestTest() ensures Split("/test/test") == ["test", "test"]
  {
    assert "/test/test" == "/" + "test" + "/" + "test";
    SplitTwo("test", "test");
  }

  lemma SplitTestVariable(v: string)
    requires v == NumberId || v == WordId
    ensures Split("/test/" + v) == ["test", v]
  {
    assert "/test/" + v == "/" + "test" + "/" + v;
    SplitTwo("test", v);
  }

  lemma SplitArg() ensures Split("/arg/*") == ["arg", "*"]
  {
    assert "/arg/*" == "/" + "arg" + "/" + "*";
    SplitTwo("arg", "*");
  }

  lemma Route1()
    ensures RouteGet(Root(), "/test", "test") == Top(T1())
  {
    SplitTest();
    RouteIsMap(Root(), "GET", "/test", "test", ["test"]);
    Step1();
  }

  lemma Route2()
    ensures RouteGet(Top(T1()), "/test/" + NumberId, "test-id-number") == Top(T2())
  {
    SplitTestVariable(NumberId);
    RouteIsMap(Top(T1()), "GET", "/test/" + NumberId, "test-id-number", ["test", NumberId]);
    Step2();
  }

  lemma Route3()
    ensures RouteGet(Top(T2()), "/test/" + WordId, "test-id-word") == Top(T3())
  {
    SplitTestVariable(WordId);
    RouteIsMap(Top(T2()), "GET", "/test/" + WordId, "test-id-word", ["test", WordId]);
    Step3();
  }

  lemma Route4()
    ensures RouteGet(Top(T3()), "/test/test", "get-test-test") == WithTest(map["GET" := "get-test-test"])
  {
    SplitTestTest();
    RouteIsMap(Top(T3()), "GET", "/test/test", "get-test-test", ["test", "test"]);
    Step4();
  }

  lemma RouteVerb(verbs: map<string, string>, verb: string, h: string)
    ensures Route(WithTest(verbs), verb, "/test/test", h) == WithTest(verbs[verb := h])
  {
    SplitTestTest();
    RouteIsMap(WithTest(verbs), verb, "/test/test", h, ["test", "test"]);
    StepVerb(verbs, verb, h);
  }

  lemma Route9()
    ensures RouteGet(R8(), "/arg/*", "test-arg") == R9()
  {
    SplitArg();
    RouteIsMap(R8(), "GET", "/arg/*", "test-arg", ["arg", "*"]);
    Step9();
  }

  lemma Route10()
    ensures RouteAny(R9(), "/any", "any-test") == Expected()
  {
    SplitAny();
    RouteIsMap(R9(), "ANY", "/any", "any-test", ["any"]);
    Step10();
  }

  lemma TestRoutesTree()
    ensures TestRoutes() == Top(T3())
  {
    Route1();
    Route2();
    Route3();
  }

  lemma TestGetPostRoutesTree()
    ensures TestGetPostRoutes() == WithTest(map["GET" := "get-test-test", "POST" := "post-test-test"])
  {
    var v4 := map["GET" := "get-test-test"];
    TestRoutesTree();
    Route4();
    RouteVerb(v4, "POST", "post-test-test");
  }

  lemma TestTestRoutesTree()
    ensures TestTestRoutes() == R8()
  {
    var v5 := map["GET" := "get-test-test", "POST" := "post-test-test"];
    var v6 := v5["PUT" := "put-test-test"];
    var v7 := v6["PATCH" := "patch-test-test"];
    TestGetPostRoutesTree();
    RouteVerb(v5, "PUT", "put-test-test");
    RouteVerb(v6, "PATCH", "patch-test-test");
    RouteVerb(v7, "DELETE", "delete-test-test");
    assert v7["DELETE" := "delete-test-test"] == TestTest().handlers;
    WithTestIsR8();
  }

  lemma WithTestIsR8()
    ensures WithTest(TestTest().handlers) == R8()
  {
    assert T3().variables == TestNode().variables;
  }

  /** Registration builds exactly the expected tree. */
  lemma TestRouterTree()
    ensures TestRouter() == Expected()
  {
    TestTestRoutesTree();
    Route9();
    Route10();
  }

  // ---------------------------------------------------------------------------
  // Matching against the main routing table (`Expected()`, which is `TestRouter()` by TestRouterTree)

  /** What the two constraint patterns answer for the segments matched below. */
  predicate PatternFacts(matches: (string, string) -> bool)
  {
    && matches("\\d+", "5") && !matches("\\d+", "hello") && !matches("\\d+", "hello-world")
    && matches("\\w+", "hello") && !matches("\\w+", "hello-world")
  }

  lemma UpperVerb(verb: string)
    requires verb in ["GET", "POST", "PUT", "PATCH", "DELETE"]
    ensures Upper(verb) == verb
  {
  }

  lemma VariableSegments()
    ensures KindOf(NumberId) == Variable && VariableName(NumberId) == Some("id") && VariableConstraint(NumberId) == Some("\\d+")
    ensures KindOf(WordId) == Variable && VariableName(WordId) == Some("id") && VariableConstraint(WordId) == Some("\\w+")
    ensures ArgumentKey(Leaf(NumberId, map["GET" := "test-id-number"])) == StrKey("id")
    ensures ArgumentKey(Leaf(WordId, map["GET" := "test-id-word"])) == StrKey("id")
  {
    VariableWithConstraint("id", "\\d+");
    assert NumberId == "$" + "id" + ":" + "\\d+";
    VariableWithConstraint("id", "\\w+");
    assert WordId == "$" + "id" + ":" + "\\w+";
    assert !Decimal.IsCanonicalInt("id") by {
      assert !Decimal.IsDigit('i');
    }
  }

  /** The outcome of a path whose first segment is a literal child of `n` that matches the rest. */
  lemma LiteralVia(n: Node<string>, verb: string, path: string, segs: seq<string>, matches: (string, string) -> bool,
                   t: Node<string>, args: seq<(Key, string)>)
    requires Split(path) == segs && segs != [] && segs[0] in n.literals
    requires MatchPath(n.literals[segs[0]], segs[1..], matches) == Some((t, args))
    ensures Match(n, verb, path, matches) ==
      if MatchMethod(t, Upper(verb)).Some? then Found(MatchMethod(t, Upper(verb)).value, args) else MethodNotAllowed(args)
  {
    LiteralFirst(n, segs, matches);
  }

  /** A path whose first segment leads nowhere from a node with literal children only is not found. */
  lemma LiteralOnlyNotFound(n: Node<string>, verb: string, path: string, segs: seq<string>, matches: (string, string) -> bool)
    requires Split(path) == segs && segs != [] && n.variables == [] && n.wildcard.None?
    requires segs[0] in n.literals ==> MatchPath(n.literals[segs[0]], segs[1..], matches).None?
    ensures Match(n, verb, path, matches) == RouteNotFound
  {
    NotFoundWhen(n, segs, matches);
  }

  /** The root of the test router: three literal children and nothing else. */
  lemma ExpectedChildren()
    ensures "test" in Expected().literals && Expected().literals["test"] == TestNode()
    ensures "arg" in Expected().literals && Expected().literals["arg"] == ArgNode()
    ensures "any" in Expected().literals && Expected().literals["any"] == Leaf("any", map["ANY" := "any-test"])
    ensures Expected().literals.Keys == {"test", "arg", "any"}
    ensures Expected().variables == [] && Expected().wildcard.None?
  {
  }

  /** GET /test reaches the /test node. */
  lemma MatchTest(matches: (string, string) -> bool)
    ensures Match(Expected(), "GET", "/test", matches) == Found("test", [])
    ensures Match(Expected(), "POST", "/test", matches) == MethodNotAllowed([])
  {
    SplitTest();
    ExpectedChildren();
    assert ["test"][1..] == [];
    LiteralVia(Expected(), "GET", "/test", ["test"], matches, TestNode(), []);
    LiteralVia(Expected(), "POST", "/test", ["test"], matches, TestNode(), []);
    UpperVerb("GET");
    UpperVerb("POST");
    assert MatchMethod(TestNode(), "POST") == None;
  }

  lemma SplitPair(path: string, a: string, b: string)
    requires Segments([a, b]) && path == "/" + a + "/" + b
    ensures Split(path) == [a, b]
  {
    SplitTwo(a, b);
  }

  /** A number goes to the first variable, whose constraint is `\\d+`, and binds `id`. */
  lemma MatchTestNumber(matches: (string, string) -> bool)
    requires PatternFacts(matches)
    ensures Match(Expected(), "GET", "/test/5", matches) == Found("test-id-number", [(StrKey("id"), "5")])
  {
    SplitPair("/test/5", "test", "5");
    ExpectedChildren();
    TestNodeNumber(matches);
    assert ["test", "5"][1..] == ["5"];
    LiteralVia(Expected(), "GET", "/test/5", ["test", "5"], matches,
      Leaf(NumberId, map["GET" := "test-id-number"]), [(StrKey("id"), "5")]);
    UpperVerb("GET");
  }

  lemma TestNodeNumber(matches: (string, string) -> bool)
    requires PatternFacts(matches)
    ensures MatchPath(TestNode(), ["5"], matches) == Some((Leaf(NumberId, map["GET" := "test-id-number"]), [(StrKey("id"), "5")]))
  {
    VariableSegments();
    var v0 := Leaf(NumberId, map["GET" := "test-id-number"]);
    assert MatchPath(v0, [], matches) == Some((v0, []));
    assert MatchesSegment(v0.segment, "5", matches);
    assert Put([], StrKey("id"), "5") == [(StrKey("id"), "5")];
    assert MatchVariables(TestNode().variables, 0, "5", [], matches) == Some((v0, [(StrKey("id"), "5")]));
    assert ["5"][1..] == [];
  }

  /** A word fails `\\d+`, so it goes to the second variable. */
  lemma MatchTestWord(matches: (string, string) -> bool)
    requires PatternFacts(matches)
    ensures Match(Expected(), "GET", "/test/hello", matches) == Found("test-id-word", [(StrKey("id"), "hello")])
  {
    SplitPair("/test/hello", "test", "hello");
    ExpectedChildren();
    TestNodeWord(matches);
    assert ["test", "hello"][1..] == ["hello"];
    LiteralVia(Expected(), "GET", "/test/hello", ["test", "hello"], matches,
      Leaf(WordId, map["GET" := "test-id-word"]), [(StrKey("id"), "hello")]);
    UpperVerb("GET");
  }

  lemma TestNodeWord(matches: (string, string) -> bool)
    requires PatternFacts(matches)
    ensures MatchPath(TestNode(), ["hello"], matches) == Some((Leaf(WordId, map["GET" := "test-id-word"]), [(StrKey("id"), "hello")]))
  {
    VariableSegments();
    var v0 := Leaf(NumberId, map["GET" := "test-id-number"]);
    var v1 := Leaf(WordId, map["GET" := "test-id-word"]);
    assert !MatchesSegment(v0.segment, "hello", matches);
    assert MatchPath(v1, [], matches) == Some((v1, []));
    assert MatchesSegment(v1.segment, "hello", matches);
    assert Put([], StrKey("id"), "hello") == [(StrKey("id"), "hello")];
    assert MatchVariables(TestNode().variables, 1, "hello", [], matches) == Some((v1, [(StrKey("id"), "hello")]));
    assert MatchVariables(TestNode().variables, 0, "hello", [], matches) == Some((v1, [(StrKey("id"), "hello")]));
    assert ["hello"][1..] == [];
    assert "hello" !in TestNode().literals;
  }

  /** The literal segment `test` wins over both variables, and each method finds its own handler. */
  lemma MatchTestTest(verb: string, matches: (string, string) -> bool)
    requires verb in ["GET", "POST", "PUT", "PATCH", "DELETE"]
    ensures Match(Expected(), verb, "/test/test", matches) == Found(TestTest().handlers[verb], [])
  {
    SplitTestTest();
    ExpectedChildren();
    assert ["test"][1..] == [];
    assert MatchPath(TestNode(), ["test"], matches) == Some((TestTest(), []));
    assert ["test", "test"][1..] == ["test"];
    LiteralVia(Expected(), verb, "/test/test", ["test", "test"], matches, TestTest(), []);
    UpperVerb(verb);
  }

  /** The wildcard takes all remaining segments as positional parameters. */
  lemma MatchArg(matches: (string, string) -> bool)
    ensures Match(Expected(), "GET", "/arg/bla/5", matches) == Found("test-arg", [(IntKey(0), "bla"), (IntKey(1), "5")])
  {
    assert "/arg/bla/5" == "/" + "arg" + "/" + "bla" + "/" + "5";
    SplitThree("arg", "bla", "5");
    ExpectedChildren();
    ArgNodeShort(matches);
    assert ["arg", "bla", "5"][1..] == ["bla", "5"];
    LiteralVia(Expected(), "GET", "/arg/bla/5", ["arg", "bla", "5"], matches,
      Leaf("*", map["GET" := "test-arg"]), [(IntKey(0), "bla"), (IntKey(1), "5")]);
    UpperVerb("GET");
  }

  lemma ArgNodeShort(matches: (string, string) -> bool)
    ensures MatchPath(ArgNode(), ["bla", "5"], matches) == Some((Leaf("*", map["GET" := "test-arg"]), [(IntKey(0), "bla"), (IntKey(1), "5")]))
  {
    assert MatchVariables(ArgNode().variables, 0, "bla", ["5"], matches) == None;
    assert Positional(["bla", "5"]) == [(IntKey(0), "bla"), (IntKey(1), "5")];
  }

  /** However many segments follow, the wildcard takes them all. */
  lemma MatchArgLong(matches: (string, string) -> bool)
    ensures Match(Expected(), "GET", "/arg/bla/5/and/more", matches) ==
      Found("test-arg", [(IntKey(0), "bla"), (IntKey(1), "5"), (IntKey(2), "and"), (IntKey(3), "more")])
  {
    var segs := ["arg", "bla", "5", "and", "more"];
    SplitArgLong();
    ExpectedChildren();
    ArgNodeLong(matches);
    assert segs[1..] == ["bla", "5", "and", "more"];
    LiteralVia(Expected(), "GET", "/arg/bla/5/and/more", segs, matches, Leaf("*", map["GET" := "test-arg"]),
      [(IntKey(0), "bla"), (IntKey(1), "5"), (IntKey(2), "and"), (IntKey(3), "more")]);
    UpperVerb("GET");
  }

  lemma SplitCons(a: string, p: string)
    requires Segments([a])
    ensures Split(a + "/" + p) == [a] + Split(p)
  {
    SplitOne(a);
    SplitConcat(a, p);
  }

  lemma SplitFive(a: string, b: string, c: string, d: string, e: string)
    requires Segments([a, b, c, d, e])
    ensures Split("/" + a + "/" + b + "/" + c + "/" + d + "/" + e) == [a, b, c, d, e]
  {
    var de := d + "/" + e;
    var cde := c + "/" + de;
    var bcde := b + "/" + cde;
    SplitNested(a, b, c, d, e);
    SplitNormalises(a + "/" + bcde, "");
    Regroup("/" + a + "/" + b + "/" + c + "/", d, e);
    Regroup("/" + a + "/" + b + "/", c, de);
    Regroup("/" + a + "/", b, cde);
    Regroup("/", a, bcde);
  }

  lemma SplitNested(a: string, b: string, c: string, d: string, e: string)
    requires Segments([a, b, c, d, e])
    ensures Split(a + "/" + (b + "/" + (c + "/" + (d + "/" + e)))) == [a, b, c, d, e]
  {
    var segs := [a, b, c, d, e];
    assert Truthy(segs[3]) && '/' !in segs[3] && Truthy(segs[4]) && '/' !in segs[4];
    assert Truthy(segs[0]) && '/' !in segs[0] && Truthy(segs[1]) && '/' !in segs[1];
    assert Truthy(segs[2]) && '/' !in segs[2];
    SplitTwo(d, e);
    SplitCons(c, d + "/" + e);
    SplitCons(b, c + "/" + (d + "/" + e));
    SplitCons(a, b + "/" + (c + "/" + (d + "/" + e)));
  }

  lemma Regroup(p: string, s: string, t: string)
    ensures p + s + "/" + t == p + (s + "/" + t)
  {
  }

  lemma SplitArgLong()
    ensures Split("/arg/bla/5/and/more") == ["arg", "bla", "5", "and", "more"]
  {
    assert "/arg/bla/5/and/more" == "/" + "arg" + "/" + "bla" + "/" + "5" + "/" + "and" + "/" + "more";
    SplitFive("arg", "bla", "5", "and", "more");
  }

  lemma ArgNodeLong(matches: (string, string) -> bool)
    ensures MatchPath(ArgNode(), ["bla", "5", "and", "more"], matches) ==
      Some((Leaf("*", map["GET" := "test-arg"]), [(IntKey(0), "bla"), (IntKey(1), "5"), (IntKey(2), "and"), (IntKey(3), "more")]))
  {
    var rest := ["bla", "5", "and", "more"];
    assert MatchVariables(ArgNode().variables, 0, "bla", rest[1..], matches) == None;
    assert Positional(rest) == [(IntKey(0), "bla"), (IntKey(1), "5"), (IntKey(2), "and"), (IntKey(3), "more")];
  }

  /** ANY answers every method on /any. */
  lemma MatchAny(verb: string, matches: (string, string) -> bool)
    requires verb in ["GET", "POST", "PUT", "PATCH", "DELETE"]
    ensures Match(Expected(), verb, "/any", matches) == Found("any-test", [])
  {
    SplitAny();
    ExpectedChildren();
    var any := Leaf("any", map["ANY" := "any-test"]);
    assert ["any"][1..] == [];
    LiteralVia(Expected(), verb, "/any", ["any"], matches, any, []);
    UpperVerb(verb);
    assert verb !in any.handlers;
  }

  /** A path no branch takes is not found. */
  lemma MatchNotFound(matches: (string, string) -> bool)
    ensures Match(Expected(), "GET", "/hello-world", matches) == RouteNotFound
  {
    ExpectedChildren();
    HelloWorldFresh();
    HelloWorldNotFound(Expected(), matches);
  }

  lemma HelloWorldFresh()
    ensures "hello-world" !in {"test", "arg", "any"}
  {
    assert |"hello-world"| == 11;
  }

  lemma HelloWorldNotFound(n: Node<string>, matches: (string, string) -> bool)
    requires "hello-world" !in n.literals && n.variables == [] && n.wildcard.None?
    ensures Match(n, "GET", "/hello-world", matches) == RouteNotFound
  {
    assert "/hello-world" == "/" + "hello-world";
    SplitOne("hello-world");
    LiteralOnlyNotFound(n, "GET", "/hello-world", ["hello-world"], matches);
  }

  /** A segment that neither variable's constraint accepts is not found either, since /test has no wildcard. */
  lemma MatchTestNotFound(matches: (string, string) -> bool)
    requires PatternFacts(matches)
    ensures Match(Expected(), "GET", "/test/hello-world", matches) == RouteNotFound
  {
    ExpectedChildren();
    TestHelloWorldNotFound(Expected(), matches);
  }

  lemma TestHelloWorldNotFound(n: Node<string>, matches: (string, string) -> bool)
    requires PatternFacts(matches)
    requires "test" in n.literals && n.literals["test"] == TestNode() && n.variables == [] && n.wildcard.None?
    ensures Match(n, "GET", "/test/hello-world", matches) == RouteNotFound
  {
    SplitPair("/test/hello-world", "test", "hello-world");
    TestNodeRejects(matches);
    assert ["test", "hello-world"][1..] == ["hello-world"];
    LiteralOnlyNotFound(n, "GET", "/test/hello-world", ["test", "hello-world"], matches);
  }

  lemma TestNodeRejects(matches: (string, string) -> bool)
    requires PatternFacts(matches)
    ensures MatchPath(TestNode(), ["hello-world"], matches) == None
  {
    VariableSegments();
    var v0 := Leaf(NumberId, map["GET" := "test-id-number"]);
    var v1 := Leaf(WordId, map["GET" := "test-id-word"]);
    assert !MatchesSegment(v0.segment, "hello-world", matches);
    assert !MatchesSegment(v1.segment, "hello-world", matches);
    assert MatchVariables(TestNode().variables, 0, "hello-world", [], matches) == None;
    assert ["hello-world"][1..] == [];
  }

  /** As written, /arg with nothing after it ends at the /arg node, which has no handler: the wildcard does not take an empty rest. */
  lemma MatchArgAlone(matches: (string, string) -> bool)
    ensures Match(Expected(), "GET", "/arg", matches) == MethodNotAllowed([])
  {
    ExpectedChildren();
    ArgAloneOn(Expected(), matches);
  }

  lemma ArgAloneOn(n: Node<string>, matches: (string, string) -> bool)
    requires "arg" in n.literals && n.literals["arg"] == ArgNode()
    ensures Match(n, "GET", "/arg", matches) == MethodNotAllowed([])
  {
    SplitArgOnly();
    assert ["arg"][1..] == [];
    LiteralVia(n, "GET", "/arg", ["arg"], matches, ArgNode(), []);
    UpperVerb("GET");
  }

  lemma SplitArgOnly()
    ensures Split("/arg") == ["arg"]
  {
    SplitOne("arg");
    assert "/arg" == "/" + "arg";
  }

  // ---------------------------------------------------------------------------
  // ANY against GET, in both registration orders

  lemma AnyAndGetOnRoot(verbs: seq<(string, string)>)
    requires |verbs| == 2 && {verbs[0].0, verbs[1].0} == {"ANY", "GET"}
    ensures var r := Route(Route(Root(), verbs[0].0, "/", verbs[0].1), verbs[1].0, "/", verbs[1].1);
      r == Root().(handlers := map[verbs[0].0 := verbs[0].1, verbs[1].0 := verbs[1].1])
  {
    SplitRoot();
  }

  /** On a root holding both an ANY and a GET handler, GET takes GET and ANY takes the rest. */
  lemma MatchRootHandlers(h: map<string, string>, matches: (string, string) -> bool)
    requires h == map["ANY" := "test-any", "GET" := "test-get"]
    ensures Match(Root().(handlers := h), "GET", "/", matches) == Found("test-get", [])
    ensures Match(Root().(handlers := h), "POST", "/", matches) == Found("test-any", [])
  {
    SplitRoot();
    UpperVerb("GET");
    UpperVerb("POST");
  }

  /** Whichever of ANY and GET is registered first, GET takes GET and ANY takes the rest. */
  lemma AnyVersusGet(matches: (string, string) -> bool)
    ensures var r := RouteGet(RouteAny(Root(), "/", "test-any"), "/", "test-get");
      Match(r, "GET", "/", matches) == Found("test-get", []) && Match(r, "POST", "/", matches) == Found("test-any", [])
    ensures var r := RouteAny(RouteGet(Root(), "/", "test-get"), "/", "test-any");
      Match(r, "GET", "/", matches) == Found("test-get", []) && Match(r, "POST", "/", matches) == Found("test-any", [])
  {
    var h := map["ANY" := "test-any", "GET" := "test-get"];
    AnyAndGetOnRoot([("ANY", "test-any"), ("GET", "test-get")]);
    AnyAndGetOnRoot([("GET", "test-get"), ("ANY", "test-any")]);
    assert map["GET" := "test-get", "ANY" := "test-any"] == h;
    MatchRootHandlers(h, matches);
  }

  // ---------------------------------------------------------------------------
  // Empty path segments

  /** The spellings of one path the test suite uses split alike, so they register and match alike. */
  lemma EmptySegmentsAB()
    ensures Split("a/b") == ["a", "b"] && Split("/a//b") == ["a", "b"]
    ensures Split("//a/b") == ["a", "b"] && Split("//a//b") == ["a", "b"]
  {
    Spellings("a", "b");
    assert "a/b" == "a" + "/" + "b";
    assert "/a//b" == "/" + "a" + "//" + "b";
    assert "//a/b" == "//" + "a" + "/" + "b";
    assert "//a//b" == "//" + "a" + "//" + "b";
  }

  lemma EmptySegmentsCD()
    ensures Split("c/d") == ["c", "d"] && Split("/c//d") == ["c", "d"]
    ensures Split("//c/d") == ["c", "d"] && Split("//c//d") == ["c", "d"]
  {
    Spellings("c", "d");
    assert "c/d" == "c" + "/" + "d";
    assert "/c//d" == "/" + "c" + "//" + "d";
    assert "//c/d" == "//" + "c" + "/" + "d";
    assert "//c//d" == "//" + "c" + "//" + "d";
  }

  lemma EmptySegmentsE()
    ensures Split("e") == ["e"] && Split("/e") == ["e"] && Split("//e") == ["e"]
  {
    SplitOne("e");
    assert "//e" == "/" + "/e";
    SplitNormalises("/e", "");
  }

  lemma Spellings(x: string, y: string)
    requires Segments([x, y])
    ensures Split(x + "/" + y) == [x, y] && Split("/" + x + "//" + y) == [x, y]
    ensures Split("//" + x + "/" + y) == [x, y] && Split("//" + x + "//" + y) == [x, y]
  {
    SplitTwo(x, y);
    SplitNormalises("/" + x, y);
    assert "/" + x + "//" + y == ("/" + x) + "//" + y;
    assert "/" + x + "/" + y == ("/" + x) + "/" + y;
    SplitNormalises("/" + x + "/" + y, "");
    assert "//" + x + "/" + y == "/" + ("/" + x + "/" + y);
    SplitNormalises("//" + x, y);
    assert "//" + x + "//" + y == ("//" + x) + "//" + y;
    assert "//" + x + "/" + y == ("//" + x) + "/" + y;
  }

  // ---------------------------------------------------------------------------
  // A wildcard beside a longer literal path, as written

  function PartialRouter(): Node<string>
  {
    RouteGet(RouteGet(Root(), "/partial/path", "test-partial-path"), "/*", "test-wildcard")
  }

  function PartialNode(): Node<string>
  {
    Node(Some("partial"), map[], map["path" := Leaf("path", map["GET" := "test-partial-path"])], [], None)
  }

  function PartialExpected(): Node<string>
  {
    Node(None, map[], map["partial" := PartialNode()], [], Some(Leaf("*", map["GET" := "test-wildcard"])))
  }

  lemma PartialRouterTree()
    ensures PartialRouter() == PartialExpected()
  {
    PartialFirstRoute();
    PartialSecondRoute();
  }

  /** After /partial/path: one literal chain and nothing else. */
  lemma PartialFirstRoute()
    ensures RouteGet(Root(), "/partial/path", "test-partial-path") == Root<string>().(literals := map["partial" := PartialNode()])
  {
    SplitPartialPath();
    RouteIsMap(Root(), "GET", "/partial/path", "test-partial-path", ["partial", "path"]);
    PartialMap();
  }

  lemma PartialMap()
    ensures Map(Root<string>(), ["partial", "path"], Some(("GET", "test-partial-path"))) == Root<string>().(literals := map["partial" := PartialNode()])
  {
    PartialInner();
    assert ["partial"] + ["path"] == ["partial", "path"];
    MapNewLiteral(Root(), "partial", ["path"], Some(("GET", "test-partial-path")));
  }

  lemma PartialInner()
    ensures Map(NewNode(Some("partial")), ["path"], Some(("GET", "test-partial-path"))) == PartialNode()
  {
    assert ["path"] + [] == ["path"];
    MapNewLiteral(NewNode(Some("partial")), "path", [], Some(("GET", "test-partial-path")));
  }

  /** Then the wildcard route fills the root's wildcard slot. */
  lemma PartialSecondRoute()
    ensures RouteGet(Root<string>().(literals := map["partial" := PartialNode()]), "/*", "test-wildcard") == PartialExpected()
  {
    assert "/*" == "/" + "*";
    SplitOne("*");
    var r1 := Root<string>().(literals := map["partial" := PartialNode()]);
    RouteIsMap(r1, "GET", "/*", "test-wildcard", ["*"]);
    MapNewWildcard(r1, Some(("GET", "test-wildcard")));
  }

  lemma SplitPartial() ensures Split("/partial") == ["partial"] && Split("partial") == ["partial"]
  {
    assert "/partial" == "/" + "partial";
    SplitOne("partial");
  }

  lemma SplitPartialSlash() ensures Split("/partial/") == ["partial"]
  {
    SplitPartial();
    assert "/partial/" == "/partial" + "/";
    SplitNormalises("/partial", "");
  }

  lemma SplitOther() ensures Split("/other") == ["other"]
  {
    assert "/other" == "/" + "other";
    SplitOne("other");
  }

  lemma SplitPartialPath() ensures Split("/partial/path") == ["partial", "path"]
  {
    assert "/partial/path" == "/" + "partial" + "/" + "path";
    SplitTwo("partial", "path");
  }

  lemma MatchPartial(matches: (string, string) -> bool)
    ensures MatchPath(PartialExpected(), ["partial"], matches) == Some((PartialNode(), []))
  {
    assert ["partial"][1..] == [];
  }

  /**
   * As written, /partial ends at the handler-less /partial node, so the
   * router answers MethodNotAllowed rather than falling back to the
   * wildcard; the same holds for "/partial/" and "partial".
   */
  lemma PartialIsNotAllowed(matches: (string, string) -> bool)
    ensures Match(PartialRouter(), "GET", "/partial", matches) == MethodNotAllowed([])
    ensures Match(PartialRouter(), "GET", "/partial/", matches) == MethodNotAllowed([])
    ensures Match(PartialRouter(), "GET", "partial", matches) == MethodNotAllowed([])
  {
    PartialRouterTree();
    SplitPartial();
    SplitPartialSlash();
    UpperVerb("GET");
    MatchPartial(matches);
  }

  lemma MatchOther(matches: (string, string) -> bool)
    ensures MatchPath(PartialExpected(), ["other"], matches) == Some((Leaf("*", map["GET" := "test-wildcard"]), [(IntKey(0), "other")]))
    ensures MatchPath(PartialExpected(), ["partial", "path"], matches) == Some((Leaf("path", map["GET" := "test-partial-path"]), []))
  {
    assert Positional(["other"]) == [(IntKey(0), "other")];
    assert ["partial", "path"][1..] == ["path"];
    assert ["path"][1..] == [];
  }

  /** Anything the literal branch cannot take goes to the wildcard. */
  lemma PartialOtherIsWildcard(matches: (string, string) -> bool)
    ensures Match(PartialRouter(), "GET", "/other", matches) == Found("test-wildcard", [(IntKey(0), "other")])
    ensures Match(PartialRouter(), "GET", "/partial/path", matches) == Found("test-partial-path", [])
  {
    PartialRouterTree();
    SplitOther();
    SplitPartialPath();
    UpperVerb("GET");
    MatchOther(matches);
  }
}
