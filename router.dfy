/**
 * The segment-trie router. A path is split on "/" into segments; each node
 * of the tree holds one handler per HTTP method and three kinds of child:
 * literal segments, `$name[:constraint]` variables (kept in insertion order)
 * and a single `*` wildcard. Registration walks the tree and creates missing
 * children; matching is a backtracking search that tries the literal child,
 * then the variables in order, then the wildcard.
 *
 * Handlers are opaque values of type `H`. Variable constraints are regular
 * expressions; whether a constraint matches a segment is the parameter
 * `matches(constraint, segment)`.
 */
module Router {
  import opened Wrappers
  import opened PhpString
  import opened PhpArray

  // ---------------------------------------------------------------------------
  // Paths and segments

  /** `explode('/', $path)` with the falsy pieces ("" and "0") dropped, as `array_filter` does. */
  function Split(path: string): seq<string>
  {
    Filter(Explode("/", path))
  }

  function Filter(parts: seq<string>): (r: seq<string>)
    ensures AllTruthy(r)
    ensures forall x | x in r :: x in parts
  {
    if parts == [] then []
    else (if Truthy(parts[0]) then [parts[0]] else []) + Filter(parts[1..])
  }

  predicate AllTruthy(segs: seq<string>)
  {
    forall i | 0 <= i < |segs| :: Truthy(segs[i])
  }

  /** Segments as `matchPath` sees them: truthy and free of "/". */
  predicate Segments(segs: seq<string>)
  {
    forall i | 0 <= i < |segs| :: Truthy(segs[i]) && '/' !in segs[i]
  }

  lemma {:induction false} FilterConcat(a: seq<string>, b: seq<string>)
    ensures Filter(a + b) == Filter(a) + Filter(b)
    decreases |a|
  {
    if a != [] {
      FilterConcat(a[1..], b);
      assert (a + b)[0] == a[0] && (a + b)[1..] == a[1..] + b;
      var head := if Truthy(a[0]) then [a[0]] else [];
      assert Filter(a + b) == head + (Filter(a[1..]) + Filter(b));
      assert Filter(a) == head + Filter(a[1..]);
    } else {
      assert a + b == b;
    }
  }

  /** Splitting yields truthy segments without "/". */
  lemma SplitSegments(path: string)
    ensures Segments(Split(path))
  {
    var parts := Explode("/", path);
    ExplodeCharFree('/', path);
    forall i | 0 <= i < |Split(path)| ensures '/' !in Split(path)[i] {
      assert Split(path)[i] in parts;
    }
  }

  /** A "/" in the path separates the segments of the two sides. */
  lemma SplitConcat(a: string, b: string)
    ensures Split(a + "/" + b) == Split(a) + Split(b)
  {
    ExplodeCharConcat('/', a, b);
    FilterConcat(Explode("/", a), Explode("/", b));
  }

  /** "" and "/" both denote the root. */
  lemma SplitRoot()
    ensures Split("") == [] && Split("/") == []
  {
    SplitConcat("", "");
  }

  /** Leading, trailing and doubled slashes do not matter. */
  lemma SplitNormalises(a: string, b: string)
    ensures Split("/" + a) == Split(a)
    ensures Split(a + "/") == Split(a)
    ensures Split(a + "//" + b) == Split(a + "/" + b)
  {
    SplitLeading(a);
    SplitTrailing(a);
    SplitDoubled(a, b);
  }

  lemma SplitLeading(a: string)
    ensures Split("/" + a) == Split(a)
  {
    SplitRoot();
    SplitConcat("", a);
    assert "" + "/" + a == "/" + a;
  }

  lemma SplitTrailing(a: string)
    ensures Split(a + "/") == Split(a)
  {
    SplitRoot();
    SplitConcat(a, "");
    assert a + "/" + "" == a + "/";
  }

  lemma SplitDoubled(a: string, b: string)
    ensures Split(a + "//" + b) == Split(a + "/" + b)
  {
    SplitConcat(a, "/" + b);
    assert a + "/" + ("/" + b) == a + "//" + b;
    SplitLeading(b);
    SplitConcat(a, b);
  }

  /** Joining segments with "/" and splitting again gives the segments back. */
  lemma {:induction false} SplitImplode(segs: seq<string>)
    requires Segments(segs)
    ensures Split(Implode("/", segs)) == segs
    decreases |segs|
  {
    SplitRoot();
    if segs != [] {
      CharSepFree('/', segs[0]);
      ExplodeWithout("/", segs[0]);
      assert Split(segs[0]) == [segs[0]];
      if |segs| > 1 {
        SplitImplode(segs[1..]);
        SplitConcat(segs[0], Implode("/", segs[1..]));
      }
    }
  }

  // ---------------------------------------------------------------------------
  // Segment kinds

  datatype Kind = Literal | Variable | Wildcard

  /** How `map` files a new child: `*` is the wildcard, a truthy segment starting with `$` a variable, anything else a literal. */
  function KindOf(segment: string): Kind
  {
    if segment == "*" then Wildcard
    else if Truthy(segment) && segment[0] == '$' then Variable
    else Literal
  }

  /**
   * The variable name of a segment `$name[:constraint]`: the text after `$`
   * up to the first `:`, which must be non-empty (otherwise the segment has
   * no name and binds under the empty key).
   */
  function VariableName(segment: string): Option<string>
  {
    if |segment| >= 2 && segment[0] == '$' && segment[1] != ':' then
      Some(ExplodeOnce(":", segment[1..])[0])
    else None
  }

  /** The constraint of a named variable segment: the text after the first `:`, if there is one. */
  function VariableConstraint(segment: string): Option<string>
  {
    if VariableName(segment).Some? then
      var parts := ExplodeOnce(":", segment[1..]);
      if |parts| == 2 then Some(parts[1]) else None
    else None
  }

  /** `$name` has name `name` and no constraint. */
  lemma VariableWithoutConstraint(name: string)
    requires |name| > 0 && ':' !in name
    ensures VariableName("$" + name) == Some(name)
    ensures VariableConstraint("$" + name) == None
    ensures KindOf("$" + name) == Variable
  {
    var s := "$" + name;
    assert s[1..] == name;
    CharSepFree(':', name);
    ExplodeOncePieces(":", name);
  }

  /** `$name:constraint` has name `name` and constraint `constraint`, which may itself contain `:`. */
  lemma VariableWithConstraint(name: string, constraint: string)
    requires |name| > 0 && ':' !in name
    ensures VariableName("$" + name + ":" + constraint) == Some(name)
    ensures VariableConstraint("$" + name + ":" + constraint) == Some(constraint)
    ensures KindOf("$" + name + ":" + constraint) == Variable
  {
    var s := "$" + name + ":" + constraint;
    assert s[1..] == name + ":" + constraint;
    assert s[1] == name[0];
    CharSepFree(':', name);
    ExplodeOnceAfter(":", name, constraint);
  }

  /** A segment that does not fit `$name[...]` has no name and no constraint. */
  lemma VariableUnnamed(segment: string)
    requires |segment| < 2 || segment[0] != '$' || segment[1] == ':'
    ensures VariableName(segment) == None && VariableConstraint(segment) == None
  {
  }

  /** `matchesSegment`: a wildcard matches anything, a variable any segment its constraint accepts, a literal only itself. */
  function MatchesSegment(segment: Option<string>, s: string, matches: (string, string) -> bool): bool
  {
    match segment
    case None => s == ""
    case Some(own) =>
      match KindOf(own)
      case Wildcard => true
      case Variable => VariableConstraint(own).None? || matches(VariableConstraint(own).value, s)
      case Literal => own == s
  }

  // ---------------------------------------------------------------------------
  // The tree

  datatype Node<H> = Node(
    segment: Option<string>,
    handlers: map<string, H>,
    literals: map<string, Node<H>>,
    variables: seq<(string, Node<H>)>,
    wildcard: Option<Node<H>>)

  function NewNode<H>(segment: Option<string>): Node<H>
  {
    Node(segment, map[], map[], [], None)
  }

  /** `new Router()`: the root has no segment. */
  function Root<H>(): Node<H>
  {
    NewNode(None)
  }

  /**
   * The tree the router builds: every child sits in the slot its kind
   * selects, keyed by its own segment.
   */
  predicate WellFormed<H>(n: Node<H>)
  {
    && (forall k | k in n.literals ::
          KindOf(k) == Literal && n.literals[k].segment == Some(k) && WellFormed(n.literals[k]))
    && (forall i | 0 <= i < |n.variables| ::
          KindOf(n.variables[i].0) == Variable && n.variables[i].1.segment == Some(n.variables[i].0)
          && WellFormed(n.variables[i].1))
    && DistinctKeys(n.variables)
    && (n.wildcard.Some? ==> n.wildcard.value.segment == Some("*") && WellFormed(n.wildcard.value))
  }

  /** Where a child was found or is to be stored. */
  datatype Slot = InLiterals | InVariables | InWildcard

  /** The lookup `literals[$segment] ?? variables[$segment] ?? ($segment == '*' ? wildcard : null)`. */
  function Locate<H>(n: Node<H>, s: string): (r: Option<Slot>)
    ensures r == Some(InLiterals) ==> s in n.literals
    ensures r == Some(InVariables) ==> s !in n.literals && Get(n.variables, s).Some?
    ensures r == Some(InWildcard) ==> s !in n.literals && Get(n.variables, s).None? && s == "*" && n.wildcard.Some?
    ensures r.None? ==> s !in n.literals && Get(n.variables, s).None? && (s != "*" || n.wildcard.None?)
  {
    if s in n.literals then Some(InLiterals)
    else if Get(n.variables, s).Some? then Some(InVariables)
    else if s == "*" && n.wildcard.Some? then Some(InWildcard)
    else None
  }

  /** The slot a new child for `s` goes into. */
  function KindSlot(s: string): Slot
  {
    match KindOf(s)
    case Wildcard => InWildcard
    case Variable => InVariables
    case Literal => InLiterals
  }

  function ChildAt<H>(n: Node<H>, s: string, slot: Slot): Node<H>
    requires Locate(n, s) == Some(slot)
  {
    match slot
    case InLiterals => n.literals[s]
    case InVariables => Get(n.variables, s).value
    case InWildcard => n.wildcard.value
  }

  function Store<H>(n: Node<H>, s: string, slot: Slot, c: Node<H>): Node<H>
  {
    match slot
    case InLiterals => n.(literals := n.literals[s := c])
    case InVariables => n.(variables := Put(n.variables, s, c))
    case InWildcard => n.(wildcard := Some(c))
  }

  /** `method($method, $handler)`, or nothing for `in`. */
  function SetHandler<H>(n: Node<H>, entry: Option<(string, H)>): Node<H>
  {
    match entry
    case None => n
    case Some((verb, h)) => n.(handlers := n.handlers[verb := h])
  }

  /**
   * `map($segments)` followed by `method(...)` on the node it returns: walk
   * the tree along the segments, up to the first falsy one, creating missing
   * children, and set the handler on the last node.
   */
  function Map<H>(n: Node<H>, segs: seq<string>, entry: Option<(string, H)>): Node<H>
    decreases |segs|
  {
    if segs == [] || !Truthy(segs[0]) then SetHandler(n, entry)
    else
      var s := segs[0];
      match Locate(n, s)
      case Some(slot) => Store(n, s, slot, Map(ChildAt(n, s, slot), segs[1..], entry))
      case None => Store(n, s, KindSlot(s), Map(NewNode(Some(s)), segs[1..], entry))
  }

  /** The node `map` would return, without creating anything. */
  function Find<H>(n: Node<H>, segs: seq<string>): Option<Node<H>>
    decreases |segs|
  {
    if segs == [] || !Truthy(segs[0]) then Some(n)
    else
      match Locate(n, segs[0])
      case None => None
      case Some(slot) => Find(ChildAt(n, segs[0], slot), segs[1..])
  }

  // ---------------------------------------------------------------------------
  // Registration

  /** Register `handler` for `method` on `path`: `$router->get($path, $handler)` and its siblings. */
  function Route<H>(n: Node<H>, verb: string, path: string, handler: H): (r: Node<H>)
    ensures Find(r, Split(path)).Some? && verb in Find(r, Split(path)).value.handlers
    ensures Find(r, Split(path)).value.handlers[verb] == handler
    ensures WellFormed(n) ==> WellFormed(r)
  {
    MapFind(n, Split(path), Some((verb, handler)));
    MapWellFormed(n, Split(path), Some((verb, handler)));
    Map(n, Split(path), Some((verb, handler)))
  }

  function RouteGet<H>(n: Node<H>, path: string, handler: H): (r: Node<H>)
    ensures Find(r, Split(path)).Some? && "GET" in Find(r, Split(path)).value.handlers
    ensures Find(r, Split(path)).value.handlers["GET"] == handler
  {
    Route(n, "GET", path, handler)
  }

  function RoutePost<H>(n: Node<H>, path: string, handler: H): (r: Node<H>)
    ensures Find(r, Split(path)).Some? && "POST" in Find(r, Split(path)).value.handlers
    ensures Find(r, Split(path)).value.handlers["POST"] == handler
  {
    Route(n, "POST", path, handler)
  }

  function RoutePut<H>(n: Node<H>, path: string, handler: H): (r: Node<H>)
    ensures Find(r, Split(path)).Some? && "PUT" in Find(r, Split(path)).value.handlers
    ensures Find(r, Split(path)).value.handlers["PUT"] == handler
  {
    Route(n, "PUT", path, handler)
  }

  function RoutePatch<H>(n: Node<H>, path: string, handler: H): (r: Node<H>)
    ensures Find(r, Split(path)).Some? && "PATCH" in Find(r, Split(path)).value.handlers
    ensures Find(r, Split(path)).value.handlers["PATCH"] == handler
  {
    Route(n, "PATCH", path, handler)
  }

  function RouteDelete<H>(n: Node<H>, path: string, handler: H): (r: Node<H>)
    ensures Find(r, Split(path)).Some? && "DELETE" in Find(r, Split(path)).value.handlers
    ensures Find(r, Split(path)).value.handlers["DELETE"] == handler
  {
    Route(n, "DELETE", path, handler)
  }

  /** `any` (and its deprecated alias `controller`): the handler for every method without one of its own. */
  function RouteAny<H>(n: Node<H>, path: string, handler: H): (r: Node<H>)
    ensures Find(r, Split(path)).Some? && "ANY" in Find(r, Split(path)).value.handlers
    ensures Find(r, Split(path)).value.handlers["ANY"] == handler
  {
    Route(n, "ANY", path, handler)
  }

  /**
   * `in($path)`: a sub-router. The node it returns is shared with the tree,
   * so it is represented by its path from the root; the tree gains the nodes
   * along that path.
   */
  function In<H>(n: Node<H>, path: string): (r: (Node<H>, seq<string>))
    ensures r.1 == Split(path) && Find(r.0, r.1).Some?
    ensures Map(r.0, r.1, None) == r.0
  {
    MapFind(n, Split(path), None);
    MapTwice(n, Split(path), None, None);
    (Map(n, Split(path), None), Split(path))
  }

  /** Registering `handler` on `path` through the sub-router `sub`. */
  function RouteIn<H>(n: Node<H>, sub: seq<string>, verb: string, path: string, handler: H): Node<H>
  {
    Map(n, sub + Split(path), Some((verb, handler)))
  }

  // ---------------------------------------------------------------------------
  // Facts about the lookup and the store

  predicate SlotFor<H>(n: Node<H>, s: string, slot: Slot)
  {
    Locate(n, s) == Some(slot) || (Locate(n, s).None? && slot == KindSlot(s))
  }

  /** After storing a child, looking its segment up finds it in the same slot. */
  lemma LocateStore<H>(n: Node<H>, s: string, slot: Slot, c: Node<H>)
    requires SlotFor(n, s, slot)
    ensures Locate(Store(n, s, slot, c), s) == Some(slot)
    ensures ChildAt(Store(n, s, slot, c), s, slot) == c
  {
    if slot == InVariables {
      PutGet(n.variables, s, c);
    }
  }

  /** Storing a child for `s` leaves the lookup of every other segment alone. */
  lemma LocateOther<H>(n: Node<H>, s: string, slot: Slot, c: Node<H>, t: string)
    requires SlotFor(n, s, slot) && t != s
    ensures Locate(Store(n, s, slot, c), t) == Locate(n, t)
    ensures Locate(n, t).Some? ==> ChildAt(Store(n, s, slot, c), t, Locate(n, t).value) == ChildAt(n, t, Locate(n, t).value)
  {
    if slot == InVariables {
      PutGet(n.variables, s, c);
    }
  }

  lemma StoreTwice<H>(n: Node<H>, s: string, slot: Slot, c1: Node<H>, c2: Node<H>)
    ensures Store(Store(n, s, slot, c1), s, slot, c2) == Store(n, s, slot, c2)
  {
    if slot == InVariables {
      PutPut(n.variables, s, c1, c2);
    }
  }

  /** Registration ends at a node on the path: the node reached by `in` with the entry added. */
  lemma {:induction false} MapFind<H>(n: Node<H>, segs: seq<string>, entry: Option<(string, H)>)
    ensures Find(Map(n, segs, None), segs).Some?
    ensures Find(Map(n, segs, entry), segs) == Some(SetHandler(Find(Map(n, segs, None), segs).value, entry))
    decreases |segs|
  {
    if segs != [] && Truthy(segs[0]) {
      var s := segs[0];
      var slot := if Locate(n, s).Some? then Locate(n, s).value else KindSlot(s);
      var c := if Locate(n, s).Some? then ChildAt(n, s, slot) else NewNode(Some(s));
      MapFind(c, segs[1..], entry);
      LocateStore(n, s, slot, Map(c, segs[1..], entry));
      LocateStore(n, s, slot, Map(c, segs[1..], None));
    }
  }

  /** Walking an existing path creates nothing: `in` of a known path leaves the tree as it is. */
  lemma {:induction false} MapExisting<H>(n: Node<H>, segs: seq<string>)
    requires Find(n, segs).Some?
    ensures Map(n, segs, None) == n
    decreases |segs|
  {
    if segs != [] && Truthy(segs[0]) {
      var s := segs[0];
      var slot := Locate(n, s).value;
      MapExisting(ChildAt(n, s, slot), segs[1..]);
      match slot
      case InLiterals =>
        assert n.literals[s := n.literals[s]] == n.literals;
      case InVariables =>
        PutSame(n.variables, s);
      case InWildcard =>
    }
  }

  /** A path that did not exist ends at a fresh node with no handlers and no children. */
  lemma {:induction false} MapFresh<H>(n: Node<H>, segs: seq<string>)
    requires AllTruthy(segs) && Find(n, segs).None?
    ensures segs != []
    ensures Find(Map(n, segs, None), segs) == Some(NewNode(Some(segs[|segs| - 1])))
    decreases |segs|
  {
    var s := segs[0];
    match Locate(n, s)
    case Some(slot) =>
      MapFresh(ChildAt(n, s, slot), segs[1..]);
      LocateStore(n, s, slot, Map(ChildAt(n, s, slot), segs[1..], None));
    case None =>
      LocateStore(n, s, KindSlot(s), Map(NewNode(Some(s)), segs[1..], None));
      if |segs| > 1 {
        FreshFind<H>(s, segs[1..]);
      }
  }

  /** Below a fresh node, Map builds a chain of fresh nodes ending at the last segment. */
  lemma {:induction false} FreshFind<H>(s: string, segs: seq<string>)
    requires AllTruthy(segs) && segs != []
    ensures Find(NewNode<H>(Some(s)), segs).None?
    ensures Find(Map(NewNode<H>(Some(s)), segs, None), segs) == Some(NewNode(Some(segs[|segs| - 1])))
    decreases |segs|
  {
    var n := NewNode<H>(Some(s));
    var t := segs[0];
    assert Get(n.variables, t).None?;
    LocateStore(n, t, KindSlot(t), Map(NewNode(Some(t)), segs[1..], None));
    if |segs| > 1 {
      FreshFind<H>(t, segs[1..]);
    }
  }

  /** Registering a route sets exactly one handler on the path's node and keeps that node's other handlers. */
  lemma RouteSetsHandler<H>(n: Node<H>, segs: seq<string>, verb: string, h: H)
    requires AllTruthy(segs)
    ensures Find(Map(n, segs, Some((verb, h))), segs).Some?
    ensures Find(Map(n, segs, Some((verb, h))), segs).value.handlers ==
      (match Find(n, segs) case Some(prev) => prev.handlers case None => map[])[verb := h]
  {
    MapFind(n, segs, Some((verb, h)));
    if Find(n, segs).Some? {
      MapExisting(n, segs);
    } else {
      MapFresh(n, segs);
    }
  }

  /** Registering one path leaves the handlers of every other existing path unchanged. */
  lemma {:induction false} MapFrame<H>(n: Node<H>, p: seq<string>, q: seq<string>, entry: Option<(string, H)>)
    requires AllTruthy(p) && AllTruthy(q) && p != q && Find(n, q).Some?
    ensures Find(Map(n, p, entry), q).Some?
    ensures Find(Map(n, p, entry), q).value.handlers == Find(n, q).value.handlers
    decreases |p|, 1
  {
    if p == [] {
    } else if q == [] {
    } else if q[0] == p[0] {
      MapFrameShared(n, p, q, entry);
    } else {
      MapFrameApart(n, p, q, entry);
    }
  }

  /** Two paths through the same first child: the frame holds inside that child. */
  lemma {:induction false} MapFrameShared<H>(n: Node<H>, p: seq<string>, q: seq<string>, entry: Option<(string, H)>)
    requires AllTruthy(p) && AllTruthy(q) && p != q && Find(n, q).Some?
    requires p != [] && q != [] && q[0] == p[0]
    ensures Find(Map(n, p, entry), q).Some?
    ensures Find(Map(n, p, entry), q).value.handlers == Find(n, q).value.handlers
    decreases |p|, 0
  {
    var s := p[0];
    assert Truthy(q[0]);
    var slot := Locate(n, s).value;
    var c := ChildAt(n, s, slot);
    var m := Map(c, p[1..], entry);
    assert Map(n, p, entry) == Store(n, s, slot, m);
    assert Find(n, q) == Find(c, q[1..]);
    LocateStore(n, s, slot, m);
    assert Find(Store(n, s, slot, m), q) == Find(m, q[1..]);
    assert p[1..] != q[1..] by {
      assert p == [s] + p[1..] && q == [s] + q[1..];
    }
    MapFrame(c, p[1..], q[1..], entry);
  }

  /** Two paths that part at the first segment: the other child is untouched. */
  lemma MapFrameApart<H>(n: Node<H>, p: seq<string>, q: seq<string>, entry: Option<(string, H)>)
    requires AllTruthy(p) && AllTruthy(q) && Find(n, q).Some?
    requires p != [] && q != [] && q[0] != p[0]
    ensures Find(Map(n, p, entry), q) == Find(n, q)
  {
    var s := p[0];
    assert Truthy(s) && Truthy(q[0]);
    var slot := if Locate(n, s).Some? then Locate(n, s).value else KindSlot(s);
    var c := if Locate(n, s).Some? then ChildAt(n, s, slot) else NewNode(Some(s));
    var m := Map(c, p[1..], entry);
    assert Map(n, p, entry) == Store(n, s, slot, m);
    LocateOther(n, s, slot, m, q[0]);
  }

  /** Registering for two different methods on one path gives the same tree in either order (GET then ANY, or ANY then GET). */
  lemma {:induction false} MapCommute<H>(n: Node<H>, p: seq<string>, m1: string, h1: H, m2: string, h2: H)
    requires m1 != m2
    ensures Map(Map(n, p, Some((m1, h1))), p, Some((m2, h2))) == Map(Map(n, p, Some((m2, h2))), p, Some((m1, h1)))
    decreases |p|
  {
    if p == [] || !Truthy(p[0]) {
      assert n.handlers[m1 := h1][m2 := h2] == n.handlers[m2 := h2][m1 := h1];
    } else {
      var s := p[0];
      var slot := if Locate(n, s).Some? then Locate(n, s).value else KindSlot(s);
      var c := if Locate(n, s).Some? then ChildAt(n, s, slot) else NewNode(Some(s));
      var e1, e2 := Some((m1, h1)), Some((m2, h2));
      MapCommute(c, p[1..], m1, h1, m2, h2);
      LocateStore(n, s, slot, Map(c, p[1..], e1));
      LocateStore(n, s, slot, Map(c, p[1..], e2));
      StoreTwice(n, s, slot, Map(c, p[1..], e1), Map(Map(c, p[1..], e1), p[1..], e2));
      StoreTwice(n, s, slot, Map(c, p[1..], e2), Map(Map(c, p[1..], e2), p[1..], e1));
    }
  }

  /** Registering a method on a path again replaces its handler and changes nothing else: the tree is as if only the second registration had been made. */
  lemma {:induction false} MapOverride<H>(n: Node<H>, p: seq<string>, verb: string, h1: H, h2: H)
    ensures Map(Map(n, p, Some((verb, h1))), p, Some((verb, h2))) == Map(n, p, Some((verb, h2)))
    decreases |p|
  {
    if p == [] || !Truthy(p[0]) {
      assert n.handlers[verb := h1][verb := h2] == n.handlers[verb := h2];
    } else {
      var s := p[0];
      var slot := if Locate(n, s).Some? then Locate(n, s).value else KindSlot(s);
      var c := if Locate(n, s).Some? then ChildAt(n, s, slot) else NewNode(Some(s));
      var e1, e2 := Some((verb, h1)), Some((verb, h2));
      MapOverride(c, p[1..], verb, h1, h2);
      LocateStore(n, s, slot, Map(c, p[1..], e1));
      StoreTwice(n, s, slot, Map(c, p[1..], e1), Map(Map(c, p[1..], e1), p[1..], e2));
    }
  }

  /** Walking a path first and then registering on it is the same as registering on it. */
  lemma {:induction false} MapTwice<H>(n: Node<H>, p: seq<string>, e1: Option<(string, H)>, e2: Option<(string, H)>)
    requires e1.None?
    ensures Map(Map(n, p, e1), p, e2) == Map(n, p, e2)
    decreases |p|
  {
    InThenRoute(n, p, [], e2);
    assert p + [] == p;
  }

  /** `in(p)` followed by a registration of `q` on the sub-router equals registering `p/q` on the root. */
  lemma {:induction false} InThenRoute<H>(n: Node<H>, p: seq<string>, q: seq<string>, entry: Option<(string, H)>)
    ensures Map(Map(n, p, None), p + q, entry) == Map(n, p + q, entry)
    decreases |p|
  {
    if p != [] && Truthy(p[0]) {
      var s := p[0];
      var slot := if Locate(n, s).Some? then Locate(n, s).value else KindSlot(s);
      var c := if Locate(n, s).Some? then ChildAt(n, s, slot) else NewNode(Some(s));
      assert (p + q)[0] == s && (p + q)[1..] == p[1..] + q;
      InThenRoute(c, p[1..], q, entry);
      LocateStore(n, s, slot, Map(c, p[1..], None));
      StoreTwice(n, s, slot, Map(c, p[1..], None), Map(Map(c, p[1..], None), p[1..] + q, entry));
    } else if p != [] {
      assert (p + q)[0] == p[0];
    }
  }

  /** The sub-router's node is shared: registering `p/q` on the root changes the node at `p` as registering `q` on that node would. */
  lemma {:induction false} SubRouterShared<H>(n: Node<H>, p: seq<string>, q: seq<string>, entry: Option<(string, H)>)
    requires AllTruthy(p)
    ensures Find(Map(n, p, None), p).Some?
    ensures Find(Map(n, p + q, entry), p) == Some(Map(Find(Map(n, p, None), p).value, q, entry))
    decreases |p|
  {
    MapFind(n, p, None);
    if p != [] {
      var s := p[0];
      var slot := if Locate(n, s).Some? then Locate(n, s).value else KindSlot(s);
      var c := if Locate(n, s).Some? then ChildAt(n, s, slot) else NewNode(Some(s));
      assert (p + q)[0] == s && (p + q)[1..] == p[1..] + q;
      SubRouterShared(c, p[1..], q, entry);
      LocateStore(n, s, slot, Map(c, p[1..] + q, entry));
      LocateStore(n, s, slot, Map(c, p[1..], None));
    } else {
      assert p + q == q;
    }
  }

  /** `in` of a path with no segments is the router itself. */
  lemma InRoot<H>(n: Node<H>)
    ensures In(n, "") == (n, []) && In(n, "/") == (n, [])
  {
    SplitRoot();
  }

  /** Registration files every child by its kind, so it keeps the tree well formed. */
  lemma {:induction false} MapWellFormed<H>(n: Node<H>, segs: seq<string>, entry: Option<(string, H)>)
    ensures WellFormed(n) ==> WellFormed(Map(n, segs, entry))
    ensures Map(n, segs, entry).segment == n.segment
    decreases |segs|
  {
    if segs != [] && Truthy(segs[0]) {
      var s := segs[0];
      var slot := if Locate(n, s).Some? then Locate(n, s).value else KindSlot(s);
      var c := if Locate(n, s).Some? then ChildAt(n, s, slot) else NewNode(Some(s));
      MapWellFormed(c, segs[1..], entry);
      if WellFormed(n) {
        ChildWellFormed(n, s);
        StoreWellFormed(n, s, slot, Map(c, segs[1..], entry));
      }
    }
  }

  /** The child a segment leads to, found or new, is well formed and carries the segment. */
  lemma ChildWellFormed<H>(n: Node<H>, s: string)
    requires WellFormed(n)
    ensures var c := if Locate(n, s).Some? then ChildAt(n, s, Locate(n, s).value) else NewNode(Some(s));
      WellFormed(c) && c.segment == Some(s)
  {
    if Locate(n, s) == Some(InVariables) {
      var k := IndexOf(n.variables, s).value;
      assert n.variables[k] == (s, ChildAt(n, s, InVariables));
    }
  }

  /** Filing a well-formed child carrying the segment in the slot `map` picks keeps the node well formed. */
  lemma StoreWellFormed<H>(n: Node<H>, s: string, slot: Slot, m: Node<H>)
    requires WellFormed(n) && WellFormed(m) && m.segment == Some(s)
    requires slot == if Locate(n, s).Some? then Locate(n, s).value else KindSlot(s)
    ensures WellFormed(Store(n, s, slot, m))
  {
    match slot
    case InLiterals =>
      assert KindOf(s) == Literal;
    case InVariables =>
      assert KindOf(s) == Variable by {
        if Locate(n, s).Some? {
          var k := IndexOf(n.variables, s).value;
          assert n.variables[k].0 == s;
        }
      }
      PutVariablesWellFormed(n.variables, s, m);
    case InWildcard =>
  }

  lemma PutVariablesWellFormed<H>(vars: seq<(string, Node<H>)>, s: string, m: Node<H>)
    requires forall i | 0 <= i < |vars| ::
      KindOf(vars[i].0) == Variable && vars[i].1.segment == Some(vars[i].0) && WellFormed(vars[i].1)
    requires DistinctKeys(vars)
    requires KindOf(s) == Variable && m.segment == Some(s) && WellFormed(m)
    ensures var vs := Put(vars, s, m);
      DistinctKeys(vs) && forall i | 0 <= i < |vs| ::
        KindOf(vs[i].0) == Variable && vs[i].1.segment == Some(vs[i].0) && WellFormed(vs[i].1)
  {
    PutDistinct(vars, s, m);
    PutEntries(vars, s, m);
    var vs := Put(vars, s, m);
    forall i | 0 <= i < |vs|
      ensures KindOf(vs[i].0) == Variable && vs[i].1.segment == Some(vs[i].0) && WellFormed(vs[i].1)
    {
      assert vs[i] in vs;
      if vs[i] != (s, m) {
        var j :| 0 <= j < |vars| && vars[j] == vs[i];
      }
    }
  }

  // ---------------------------------------------------------------------------
  // Matching

  function Positional(segs: seq<string>): (r: seq<(Key, string)>)
    ensures |r| == |segs| && forall i | 0 <= i < |segs| :: r[i] == (IntKey(i), segs[i])
  {
    seq(|segs|, i requires 0 <= i < |segs| => (IntKey(i), segs[i]))
  }

  /** The key a variable binds its segment under: its name, or "" for a segment without one. */
  function ArgumentKey<H>(v: Node<H>): Key
  {
    KeyOf(match v.segment case Some(s) => VariableName(s).GetOr("") case None => "")
  }

  /**
   * `matchPath($segments, $arguments)`: the node the segments lead to and
   * the arguments collected on the way, or None. An empty path ends at the
   * current node whether or not it has handlers.
   */
  function MatchPath<H>(n: Node<H>, segs: seq<string>, matches: (string, string) -> bool): Option<(Node<H>, seq<(Key, string)>)>
    decreases |segs|, 1, 0
  {
    if segs == [] then Some((n, []))
    else
      var s := segs[0];
      var viaLiteral := if s in n.literals then MatchPath(n.literals[s], segs[1..], matches) else None;
      if viaLiteral.Some? then viaLiteral
      else
        var viaVariable := MatchVariables(n.variables, 0, s, segs[1..], matches);
        if viaVariable.Some? then viaVariable
        else if n.wildcard.Some? then Some((n.wildcard.value, Positional(segs)))
        else None
  }

  /** The `foreach` over the variable children from index `i` on: the first whose segment matches and whose subtree succeeds wins and binds its name. */
  function MatchVariables<H>(vars: seq<(string, Node<H>)>, i: nat, s: string, rest: seq<string>,
                             matches: (string, string) -> bool): Option<(Node<H>, seq<(Key, string)>)>
    decreases |rest| + 1, 0, |vars| - i
  {
    if i >= |vars| then None
    else
      var v := vars[i].1;
      var sub := if MatchesSegment(v.segment, s, matches) then MatchPath(v, rest, matches) else None;
      match sub
      case Some((t, args)) => Some((t, Put(args, ArgumentKey(v), s)))
      case None => MatchVariables(vars, i + 1, s, rest, matches)
  }

  /** `matchMethod`: the handler for the method itself, else the one for ANY. */
  function MatchMethod<H>(n: Node<H>, verb: string): (r: Option<H>)
    ensures verb in n.handlers ==> r == Some(n.handlers[verb])
    ensures verb !in n.handlers ==> r == if "ANY" in n.handlers then Some(n.handlers["ANY"]) else None
  {
    if verb in n.handlers then Some(n.handlers[verb])
    else if "ANY" in n.handlers then Some(n.handlers["ANY"])
    else None
  }

  datatype Outcome<H> =
    | Found(handler: H, parameters: seq<(Key, string)>)
    | RouteNotFound
    | MethodNotAllowed(parameters: seq<(Key, string)>)

  /** `match($method, $path, $parameters)`: the handler and parameters, or the exception it throws. */
  function Match<H>(n: Node<H>, verb: string, path: string, matches: (string, string) -> bool): Outcome<H>
  {
    match MatchPath(n, Split(path), matches)
    case None => RouteNotFound
    case Some((t, args)) =>
      match MatchMethod(t, Upper(verb))
      case Some(h) => Found(h, args)
      case None => MethodNotAllowed(args)
  }

  /** A variable child succeeds on segment `s` when its segment accepts `s` and its subtree matches the rest. */
  predicate VariableSucceeds<H>(v: Node<H>, s: string, rest: seq<string>, matches: (string, string) -> bool)
  {
    MatchesSegment(v.segment, s, matches) && MatchPath(v, rest, matches).Some?
  }

  /** The variables are tried in insertion order: the first one that succeeds decides the result. */
  lemma {:induction false} FirstVariableWins<H>(vars: seq<(string, Node<H>)>, i: nat, k: nat, s: string,
                                               rest: seq<string>, matches: (string, string) -> bool)
    requires i <= k < |vars| && VariableSucceeds(vars[k].1, s, rest, matches)
    requires forall j | i <= j < k :: !VariableSucceeds(vars[j].1, s, rest, matches)
    ensures MatchVariables(vars, i, s, rest, matches) ==
      Some((MatchPath(vars[k].1, rest, matches).value.0,
            Put(MatchPath(vars[k].1, rest, matches).value.1, ArgumentKey(vars[k].1), s)))
    decreases k - i
  {
    if i < k {
      FirstVariableWins(vars, i + 1, k, s, rest, matches);
    }
  }

  /** When no variable succeeds, the variables yield nothing. */
  lemma {:induction false} NoVariableSucceeds<H>(vars: seq<(string, Node<H>)>, i: nat, s: string,
                                                rest: seq<string>, matches: (string, string) -> bool)
    requires forall j | i <= j < |vars| :: !VariableSucceeds(vars[j].1, s, rest, matches)
    ensures MatchVariables(vars, i, s, rest, matches).None?
    decreases |vars| - i
  {
    if i < |vars| {
      NoVariableSucceeds(vars, i + 1, s, rest, matches);
    }
  }

  /** The literal child is tried first: if its subtree matches, that is the result. */
  lemma LiteralFirst<H>(n: Node<H>, segs: seq<string>, matches: (string, string) -> bool)
    requires segs != [] && segs[0] in n.literals
    requires MatchPath(n.literals[segs[0]], segs[1..], matches).Some?
    ensures MatchPath(n, segs, matches) == MatchPath(n.literals[segs[0]], segs[1..], matches)
  {
  }

  /** The wildcard is the last resort, and it takes the whole remaining path as positional parameters. */
  lemma WildcardLast<H>(n: Node<H>, segs: seq<string>, matches: (string, string) -> bool)
    requires segs != [] && n.wildcard.Some?
    requires segs[0] in n.literals ==> MatchPath(n.literals[segs[0]], segs[1..], matches).None?
    requires forall j | 0 <= j < |n.variables| :: !VariableSucceeds(n.variables[j].1, segs[0], segs[1..], matches)
    ensures MatchPath(n, segs, matches) == Some((n.wildcard.value, Positional(segs)))
  {
    NoVariableSucceeds(n.variables, 0, segs[0], segs[1..], matches);
  }

  /** A node with a wildcard child matches every non-empty path. */
  lemma {:induction false} WildcardCatchesAll<H>(n: Node<H>, segs: seq<string>, matches: (string, string) -> bool)
    requires n.wildcard.Some?
    ensures MatchPath(n, segs, matches).Some?
  {
  }

  /** A path is not found exactly when no literal, no variable and no wildcard child can take its first segment. */
  lemma NotFoundWhen<H>(n: Node<H>, segs: seq<string>, matches: (string, string) -> bool)
    ensures MatchPath(n, segs, matches).None? <==>
      && segs != []
      && (segs[0] in n.literals ==> MatchPath(n.literals[segs[0]], segs[1..], matches).None?)
      && (forall j | 0 <= j < |n.variables| :: !VariableSucceeds(n.variables[j].1, segs[0], segs[1..], matches))
      && n.wildcard.None?
  {
    if segs != [] {
      if forall j | 0 <= j < |n.variables| :: !VariableSucceeds(n.variables[j].1, segs[0], segs[1..], matches) {
        NoVariableSucceeds(n.variables, 0, segs[0], segs[1..], matches);
      } else {
        var k :| 0 <= k < |n.variables| && VariableSucceeds(n.variables[k].1, segs[0], segs[1..], matches);
        FirstSucceeding(n.variables, segs[0], segs[1..], matches, k);
      }
    }
  }

  lemma {:induction false} FirstSucceeding<H>(vars: seq<(string, Node<H>)>, s: string, rest: seq<string>,
                                             matches: (string, string) -> bool, k: nat)
    requires k < |vars| && VariableSucceeds(vars[k].1, s, rest, matches)
    ensures MatchVariables(vars, 0, s, rest, matches).Some?
    decreases k
  {
    if exists j | 0 <= j < k :: VariableSucceeds(vars[j].1, s, rest, matches) {
      var j :| 0 <= j < k && VariableSucceeds(vars[j].1, s, rest, matches);
      FirstSucceeding(vars, s, rest, matches, j);
    } else {
      FirstVariableWins(vars, 0, k, s, rest, matches);
    }
  }

  /** Every parameter value is a segment of the path, and parameter keys are distinct. */
  lemma {:induction false} ParametersFromPath<H>(n: Node<H>, segs: seq<string>, matches: (string, string) -> bool)
    ensures MatchPath(n, segs, matches).Some? ==>
      var args := MatchPath(n, segs, matches).value.1;
      DistinctKeys(args) && forall e | e in args :: e.1 in segs
    decreases |segs|, 1, 0
  {
    if segs != [] {
      if segs[0] in n.literals {
        ParametersFromPath(n.literals[segs[0]], segs[1..], matches);
      }
      VariableParametersFromPath(n.variables, 0, segs[0], segs[1..], matches);
    }
  }

  lemma {:induction false} VariableParametersFromPath<H>(vars: seq<(string, Node<H>)>, i: nat, s: string,
                                                        rest: seq<string>, matches: (string, string) -> bool)
    ensures MatchVariables(vars, i, s, rest, matches).Some? ==>
      var args := MatchVariables(vars, i, s, rest, matches).value.1;
      DistinctKeys(args) && forall e | e in args :: e.1 in [s] + rest
    decreases |rest| + 1, 0, |vars| - i
  {
    if i < |vars| {
      var v := vars[i].1;
      ParametersFromPath(v, rest, matches);
      VariableParametersFromPath(vars, i + 1, s, rest, matches);
      if MatchesSegment(v.segment, s, matches) && MatchPath(v, rest, matches).Some? {
        var args := MatchPath(v, rest, matches).value.1;
        PutDistinct(args, ArgumentKey(v), s);
        PutEntries(args, ArgumentKey(v), s);
      }
    }
  }

  /** The segments are followed through literal children all the way. */
  predicate LiteralPath<H>(n: Node<H>, segs: seq<string>)
    decreases |segs|
  {
    segs == [] || (segs[0] in n.literals && LiteralPath(n.literals[segs[0]], segs[1..]))
  }

  /** Along a literal path the match ends at the path's node with no parameters, whatever else the tree holds. */
  lemma {:induction false} LiteralPathMatches<H>(n: Node<H>, segs: seq<string>, matches: (string, string) -> bool)
    requires LiteralPath(n, segs) && AllTruthy(segs)
    ensures Find(n, segs).Some?
    ensures MatchPath(n, segs, matches) == Some((Find(n, segs).value, []))
    decreases |segs|
  {
    if segs != [] {
      LiteralPathMatches(n.literals[segs[0]], segs[1..], matches);
    }
  }

  /** Registering a path of literal segments makes it a literal path. */
  lemma {:induction false} MapLiteralPath<H>(n: Node<H>, segs: seq<string>, entry: Option<(string, H)>)
    requires WellFormed(n) && AllTruthy(segs)
    requires forall i | 0 <= i < |segs| :: KindOf(segs[i]) == Literal
    ensures LiteralPath(Map(n, segs, entry), segs)
    decreases |segs|
  {
    if segs != [] {
      var s := segs[0];
      assert KindOf(s) == Literal;
      forall j | 0 <= j < |n.variables| ensures n.variables[j].0 != s {
        assert KindOf(n.variables[j].0) == Variable;
      }
      IndexOfNone(n.variables, s);
      var c := if s in n.literals then n.literals[s] else NewNode(Some(s));
      MapLiteralPath(c, segs[1..], entry);
    }
  }

  /** A literal route, once registered, is matched by its own path with no parameters. */
  lemma LiteralRouteMatches<H>(n: Node<H>, verb: string, path: string, h: H, matches: (string, string) -> bool)
    requires WellFormed(n)
    requires forall i | 0 <= i < |Split(path)| :: KindOf(Split(path)[i]) == Literal
    ensures Match(Route(n, Upper(verb), path, h), verb, path, matches) == Found(h, [])
  {
    var segs := Split(path);
    var r := Route(n, Upper(verb), path, h);
    MapLiteralPath(n, segs, Some((Upper(verb), h)));
    LiteralPathMatches(r, segs, matches);
    UpperIdempotent(verb);
  }

  /** The method is compared in upper case, so its case does not matter. */
  lemma MatchIgnoresMethodCase<H>(n: Node<H>, verb: string, path: string, matches: (string, string) -> bool)
    ensures Match(n, verb, path, matches) == Match(n, Upper(verb), path, matches)
  {
    UpperIdempotent(verb);
  }
}
