/**
 * An ordered, case-insensitive collection of HTTP headers. Entries keep
 * the casing of their last assignment; `names` maps each lowercased name
 * to that casing.
 */
module Headers {
  import opened Wrappers
  import opened PhpString
  import opened PhpArray
  import Header

  type Entries = seq<(string, string)>

  /** No two entries have names that are equal ignoring case. */
  predicate FoldedDistinct(hs: Entries)
  {
    forall i, j | 0 <= i < j < |hs| :: Lower(hs[i].0) != Lower(hs[j].0)
  }

  /** The value of the first entry whose name lowercases to `key`. */
  function Folded(hs: Entries, key: string): (r: Option<string>)
    ensures r.None? <==> forall i | 0 <= i < |hs| :: Lower(hs[i].0) != key
  {
    if hs == [] then None
    else if Lower(hs[0].0) == key then Some(hs[0].1)
    else
      var r := Folded(hs[1..], key);
      assert forall i | 1 <= i < |hs| :: hs[i] == hs[1..][i - 1];
      r
  }

  /** The entries without the ones whose name lowercases to `key`, order kept. */
  function Without(hs: Entries, key: string): (r: Entries)
    ensures forall e | e in r :: e in hs && Lower(e.0) != key
  {
    if hs == [] then []
    else if Lower(hs[0].0) == key then Without(hs[1..], key)
    else [hs[0]] + Without(hs[1..], key)
  }

  /** The entries after `set(name, value)`: a same-named entry goes, the new one is appended. */
  function Assigned(hs: Entries, name: string, value: string): Entries
  {
    Without(hs, Lower(name)) + [(name, value)]
  }

  // ---------------------------------------------------------------------------
  // Properties of the entry-level specification

  lemma {:induction false} WithoutNone(hs: Entries, key: string)
    requires forall i | 0 <= i < |hs| :: Lower(hs[i].0) != key
    ensures Without(hs, key) == hs
    decreases |hs|
  {
    if hs != [] {
      forall i | 0 <= i < |hs[1..]| ensures Lower(hs[1..][i].0) != key {
        assert hs[1..][i] == hs[i + 1];
      }
      WithoutNone(hs[1..], key);
      assert Lower(hs[0].0) != key;
    }
  }

  lemma {:induction false} WithoutConcat(a: Entries, b: Entries, key: string)
    ensures Without(a + b, key) == Without(a, key) + Without(b, key)
    decreases |a|
  {
    if a == [] {
      assert a + b == b;
    } else {
      assert (a + b)[1..] == a[1..] + b;
      WithoutConcat(a[1..], b, key);
    }
  }

  /** In a collection without case duplicates, removal takes out exactly the one matching entry. */
  lemma WithoutOne(hs: Entries, i: nat, key: string)
    requires FoldedDistinct(hs) && i < |hs| && Lower(hs[i].0) == key
    ensures Without(hs, key) == hs[..i] + hs[i + 1..]
  {
    var before, after := hs[..i], hs[i + 1..];
    assert hs == before + ([hs[i]] + after);
    OthersDiffer(hs, i, key);
    WithoutConcat(before, [hs[i]] + after, key);
    WithoutConcat([hs[i]], after, key);
    assert Without([hs[i]], key) == [];
  }

  /** Only the entry at `i` has a name lowercasing to `key`, so removal leaves the parts around it alone. */
  lemma OthersDiffer(hs: Entries, i: nat, key: string)
    requires FoldedDistinct(hs) && i < |hs| && Lower(hs[i].0) == key
    ensures Without(hs[..i], key) == hs[..i] && Without(hs[i + 1..], key) == hs[i + 1..]
  {
    var before, after := hs[..i], hs[i + 1..];
    forall j | 0 <= j < |before| ensures Lower(before[j].0) != key {
      assert before[j] == hs[j];
    }
    forall j | 0 <= j < |after| ensures Lower(after[j].0) != key {
      assert after[j] == hs[i + 1 + j];
    }
    WithoutNone(before, key);
    WithoutNone(after, key);
  }

  lemma {:induction false} WithoutDistinct(hs: Entries, key: string)
    requires FoldedDistinct(hs)
    ensures FoldedDistinct(Without(hs, key)) && forall i | 0 <= i < |Without(hs, key)| :: Lower(Without(hs, key)[i].0) != key
    decreases |hs|
  {
    if hs != [] {
      assert FoldedDistinct(hs[1..]) by {
        forall a, b | 0 <= a < b < |hs[1..]| ensures Lower(hs[1..][a].0) != Lower(hs[1..][b].0) {
          assert hs[1..][a] == hs[a + 1] && hs[1..][b] == hs[b + 1];
        }
      }
      WithoutDistinct(hs[1..], key);
      var w := Without(hs[1..], key);
      if Lower(hs[0].0) != key {
        forall e | e in w ensures Lower(e.0) != Lower(hs[0].0) {
          var j :| 1 <= j < |hs| && hs[j] == e;
        }
        assert Without(hs, key) == [hs[0]] + w;
        forall a | 0 <= a < |w| ensures Lower(w[a].0) != Lower(hs[0].0) {
          assert w[a] in w;
        }
      }
    }
  }

  lemma {:induction false} FoldedWithout(hs: Entries, key: string, other: string)
    requires other != key
    ensures Folded(Without(hs, key), other) == Folded(hs, other)
    decreases |hs|
  {
    if hs != [] {
      FoldedWithout(hs[1..], key, other);
    }
  }

  lemma FoldedAppend(hs: Entries, e: (string, string), key: string)
    ensures Folded(hs + [e], key) == if Folded(hs, key).Some? then Folded(hs, key) else if Lower(e.0) == key then Some(e.1) else None
    decreases |hs|
  {
    if hs != [] {
      assert (hs + [e])[1..] == hs[1..] + [e];
      FoldedAppend(hs[1..], e, key);
    }
  }

  /** After `set(n, v)`, every name equal to `n` ignoring case reads `v`; every other name reads as before. */
  lemma AssignedFolded(hs: Entries, name: string, value: string, other: string)
    ensures Folded(Assigned(hs, name, value), Lower(other)) ==
      if Lower(other) == Lower(name) then Some(value) else Folded(hs, Lower(other))
  {
    var w := Without(hs, Lower(name));
    FoldedAppend(w, (name, value), Lower(other));
    if Lower(other) == Lower(name) {
      assert Folded(w, Lower(name)).None?;
    } else {
      FoldedWithout(hs, Lower(name), Lower(other));
    }
  }

  /** Re-setting a name that is present under some casing moves it to the end under the new casing; nothing else moves. */
  lemma AssignedReplaces(hs: Entries, i: nat, name: string, value: string)
    requires FoldedDistinct(hs) && i < |hs| && Lower(hs[i].0) == Lower(name)
    ensures Assigned(hs, name, value) == hs[..i] + hs[i + 1..] + [(name, value)]
  {
    WithoutOne(hs, i, Lower(name));
  }

  /** Setting a new name appends it. */
  lemma AssignedAppends(hs: Entries, name: string, value: string)
    requires forall i | 0 <= i < |hs| :: Lower(hs[i].0) != Lower(name)
    ensures Assigned(hs, name, value) == hs + [(name, value)]
  {
    WithoutNone(hs, Lower(name));
  }

  lemma AssignedDistinct(hs: Entries, name: string, value: string)
    requires FoldedDistinct(hs)
    ensures FoldedDistinct(Assigned(hs, name, value))
  {
    WithoutDistinct(hs, Lower(name));
  }

  /** `unset($headers[$k])` for the one entry whose name is `k`. */
  lemma {:induction false} UnsetIsWithout(hs: Entries, k: string)
    requires forall i | 0 <= i < |hs| :: Lower(hs[i].0) == Lower(k) ==> hs[i].0 == k
    ensures Unset(hs, k) == Without(hs, Lower(k))
    decreases |hs|
  {
    if hs != [] {
      assert forall i | 0 <= i < |hs[1..]| :: hs[1..][i] == hs[i + 1];
      UnsetIsWithout(hs[1..], k);
    }
  }

  /** The lines `name: value`, in entry order. */
  function LinesOf(hs: Entries): (r: seq<string>)
    ensures |r| == |hs|
  {
    seq(|hs|, i requires 0 <= i < |hs| => Header.Line(Header.Field(hs[i].0, hs[i].1)))
  }

  /** Each line followed by CRLF, all concatenated. */
  function Crlf(lines: seq<string>): string
  {
    if lines == [] then "" else Crlf(lines[..|lines| - 1]) + lines[|lines| - 1] + "\r\n"
  }

  /** The text of a collection is the text of its first part followed by the text of the rest. */
  lemma {:induction false} CrlfConcat(a: seq<string>, b: seq<string>)
    ensures Crlf(a + b) == Crlf(a) + Crlf(b)
    decreases |b|
  {
    if b == [] {
      assert a + b == a;
    } else {
      var b' := b[..|b| - 1];
      assert (a + b)[..|a + b| - 1] == a + b';
      CrlfConcat(a, b');
    }
  }

  /** Every line ends in CRLF: the text of a non-empty collection ends in CRLF. */
  lemma CrlfEnds(lines: seq<string>)
    requires lines != []
    ensures |Crlf(lines)| >= 2 && Crlf(lines)[|Crlf(lines)| - 2..] == "\r\n"
  {
  }

  // ---------------------------------------------------------------------------
  // The collection

  class Headers {
    var headers: Entries
    var names: map<string, string>

    /** Every entry is registered under its lowercased name with its own casing, and nothing else is. */
    ghost predicate Valid()
      reads this
    {
      && FoldedDistinct(headers)
      && (forall i | 0 <= i < |headers| :: Lower(headers[i].0) in names && names[Lower(headers[i].0)] == headers[i].0)
      && |names| == |headers|
    }

    /** `new Headers($init)`: every entry of `init` set in order. */
    constructor (init: Entries)
      ensures Valid()
      ensures headers == AssignedAll([], init)
    {
      headers := [];
      names := map[];
      new;
      var i := 0;
      while i < |init|
        invariant 0 <= i <= |init|
        invariant Valid()
        invariant headers == AssignedAll([], init[..i])
      {
        assert init[..i + 1][..i] == init[..i];
        Set(init[i].0, init[i].1);
        i := i + 1;
      }
      assert init[..i] == init;
    }

    method Set(name: string, value: string)
      requires Valid()
      modifies this
      ensures Valid()
      ensures headers == Assigned(old(headers), name, value)
      ensures names == old(names)[Lower(name) := name]
    {
      var key := Lower(name);
      if key in names {
        var present := names[key];
        assert exists i :: 0 <= i < |headers| && Lower(headers[i].0) == key by {
          NameRegistered(key);
        }
        var i :| 0 <= i < |headers| && Lower(headers[i].0) == key;
        LowerIsLower(name);
        UnsetIsWithout(headers, present);
        WithoutOne(headers, i, key);
        headers := Unset(headers, present);
      } else {
        WithoutNone(headers, key);
      }
      var rest := headers;
      assert forall j | 0 <= j < |rest| :: rest[j].0 != name by {
        WithoutDistinct(old(headers), key);
      }
      IndexOfNone(rest, name);
      headers := Put(headers, name, value);
      names := names[key := name];
      AssignedDistinct(old(headers), name, value);
      AssignedNames(old(headers), old(names), name, value);
    }

    /** A registered lowercased name belongs to some entry. */
    lemma NameRegistered(key: string)
      requires Valid() && key in names
      ensures exists i :: 0 <= i < |headers| && Lower(headers[i].0) == key
    {
      RegistryCovers(headers, names);
    }

    /** `get($name, $default)`: the value stored under the name ignoring case, or the default. */
    function Get(name: string, default: Option<string>): (r: Option<string>)
      reads this
      requires Valid()
      ensures Folded(headers, Lower(name)).Some? ==> r == Folded(headers, Lower(name))
      ensures Folded(headers, Lower(name)).None? ==> r == default
    {
      var key := Lower(name);
      var stored := if key in names then names[key] else name;
      FoldedGet(headers, names, name);
      match PhpArray.Get(headers, stored)
      case Some(v) => Some(v)
      case None => default
    }

    /** `has($name)`: present under some casing with a value that is not "" or "0". */
    function Has(name: string): (r: bool)
      reads this
      requires Valid()
      ensures r <==> Folded(headers, Lower(name)).Some? && Truthy(Folded(headers, Lower(name)).value)
    {
      match Get(name, None)
      case Some(v) => Truthy(v)
      case None => false
    }

    /** `all()`: the entries in order, with no two names equal ignoring case. */
    function All(): (r: Entries)
      reads this
      requires Valid()
      ensures FoldedDistinct(r) && DistinctKeys(r) && |r| == Count()
    {
      FoldedKeys(headers);
      headers
    }

    /** `count()`: the number of distinct lowercased names. */
    function Count(): (r: nat)
      reads this
      requires Valid()
      ensures r == |names|
      ensures r == |LoweredNames(headers)|
    {
      SizeOfLowered(headers);
      |headers|
    }

    /** `lines()`: one `name: value` per entry, in entry order. */
    method Lines() returns (lines: seq<string>)
      requires Valid()
      ensures lines == LinesOf(headers)
    {
      lines := [];
      var i := 0;
      while i < |headers|
        invariant 0 <= i <= |headers|
        invariant lines == LinesOf(headers[..i])
      {
        lines := lines + [Header.Line(Header.Field(headers[i].0, headers[i].1))];
        i := i + 1;
      }
      assert headers[..i] == headers;
    }

    /** `__toString()`: every line followed by CRLF; no headers give "". */
    method ToString() returns (s: string)
      requires Valid()
      ensures s == Crlf(LinesOf(headers))
      ensures headers == [] ==> s == ""
    {
      var lines := Lines();
      s := "";
      var i := 0;
      while i < |lines|
        invariant 0 <= i <= |lines|
        invariant s == Crlf(lines[..i])
      {
        assert lines[..i + 1][..i] == lines[..i];
        s := s + lines[i] + "\r\n";
        i := i + 1;
      }
      assert lines[..i] == lines;
    }
  }

  /** The entries after setting every pair of `init` in order. */
  function AssignedAll(hs: Entries, init: Entries): Entries
  {
    if init == [] then hs
    else
      var last := init[|init| - 1];
      Assigned(AssignedAll(hs, init[..|init| - 1]), last.0, last.1)
  }

  /** Setting pairs one after another keeps the collection free of case duplicates. */
  lemma {:induction false} AssignedAllDistinct(init: Entries)
    ensures FoldedDistinct(AssignedAll([], init))
    decreases |init|
  {
    if init != [] {
      AssignedAllDistinct(init[..|init| - 1]);
      AssignedDistinct(AssignedAll([], init[..|init| - 1]), init[|init| - 1].0, init[|init| - 1].1);
    }
  }

  /** The lowercased names of a collection without case duplicates are as many as its entries. */
  lemma {:induction false} SizeOfLowered(hs: Entries)
    requires FoldedDistinct(hs)
    ensures |LoweredNames(hs)| == |hs|
    decreases |hs|
  {
    if hs != [] {
      var front := hs[..|hs| - 1];
      FrontDistinct(hs);
      SizeOfLowered(front);
      LoweredSnoc(hs);
      LastFresh(hs);
    }
  }

  /** The set of lowercased names. */
  function LoweredNames(hs: Entries): set<string>
  {
    set i | 0 <= i < |hs| :: Lower(hs[i].0)
  }

  lemma FrontDistinct(hs: Entries)
    requires FoldedDistinct(hs) && hs != []
    ensures FoldedDistinct(hs[..|hs| - 1])
  {
    var front := hs[..|hs| - 1];
    forall a, b | 0 <= a < b < |front| ensures Lower(front[a].0) != Lower(front[b].0) {
      assert front[a] == hs[a] && front[b] == hs[b];
    }
  }

  lemma LoweredSnoc(hs: Entries)
    requires hs != []
    ensures LoweredNames(hs) == LoweredNames(hs[..|hs| - 1]) + {Lower(hs[|hs| - 1].0)}
  {
    var front := hs[..|hs| - 1];
    forall x | x in LoweredNames(front) ensures x in LoweredNames(hs) {
      var i :| 0 <= i < |front| && Lower(front[i].0) == x;
      assert Lower(hs[i].0) == x;
    }
    assert Lower(hs[|hs| - 1].0) in LoweredNames(hs);
    forall x | x in LoweredNames(hs) ensures x in LoweredNames(front) + {Lower(hs[|hs| - 1].0)} {
      var i :| 0 <= i < |hs| && Lower(hs[i].0) == x;
      if i < |hs| - 1 {
        assert front[i] == hs[i];
      }
    }
  }

  lemma LastFresh(hs: Entries)
    requires FoldedDistinct(hs) && hs != []
    ensures Lower(hs[|hs| - 1].0) !in LoweredNames(hs[..|hs| - 1])
  {
    var front := hs[..|hs| - 1];
    forall i | 0 <= i < |front| ensures Lower(front[i].0) != Lower(hs[|hs| - 1].0) {
      assert front[i] == hs[i];
    }
  }

  /** Entries without case duplicates have distinct names. */
  lemma FoldedKeys(hs: Entries)
    requires FoldedDistinct(hs)
    ensures DistinctKeys(hs)
  {
    forall i, j | 0 <= i < j < |hs| ensures hs[i].0 != hs[j].0 {
      assert Lower(hs[i].0) != Lower(hs[j].0);
    }
  }

  /** The lookup through `names` agrees with the case-insensitive lookup on the entries. */
  lemma FoldedGet(hs: Entries, names: map<string, string>, name: string)
    requires FoldedDistinct(hs)
    requires forall i | 0 <= i < |hs| :: Lower(hs[i].0) in names && names[Lower(hs[i].0)] == hs[i].0
    requires |names| == |hs|
    ensures var stored := if Lower(name) in names then names[Lower(name)] else name;
      PhpArray.Get(hs, stored) == Folded(hs, Lower(name))
  {
    var key := Lower(name);
    if i :| 0 <= i < |hs| && Lower(hs[i].0) == key {
      FoldedAt(hs, i);
      FoldedKeys(hs);
      forall j | 0 <= j < i ensures hs[j].0 != hs[i].0 {
        assert hs[j].0 != hs[i].0;
      }
      IndexOfIs(hs, hs[i].0, i);
    } else {
      RegistryCovers(hs, names);
      forall j | 0 <= j < |hs| ensures hs[j].0 != name {
        assert Lower(hs[j].0) != key;
      }
      IndexOfNone(hs, name);
    }
  }

  lemma {:induction false} FoldedAt(hs: Entries, i: nat)
    requires FoldedDistinct(hs) && i < |hs|
    ensures Folded(hs, Lower(hs[i].0)) == Some(hs[i].1)
    decreases i
  {
    if i > 0 {
      assert FoldedDistinct(hs[1..]) by {
        forall a, b | 0 <= a < b < |hs[1..]| ensures Lower(hs[1..][a].0) != Lower(hs[1..][b].0) {
          assert hs[1..][a] == hs[a + 1] && hs[1..][b] == hs[b + 1];
        }
      }
      assert hs[1..][i - 1] == hs[i];
      FoldedAt(hs[1..], i - 1);
    }
  }

  /** The name registry after `set` still matches the entries one-to-one. */
  lemma AssignedNames(hs: Entries, names: map<string, string>, name: string, value: string)
    requires FoldedDistinct(hs)
    requires forall i | 0 <= i < |hs| :: Lower(hs[i].0) in names && names[Lower(hs[i].0)] == hs[i].0
    requires |names| == |hs|
    ensures var r := Assigned(hs, name, value); var m := names[Lower(name) := name];
      (forall i | 0 <= i < |r| :: Lower(r[i].0) in m && m[Lower(r[i].0)] == r[i].0) && |m| == |r|
  {
    var key := Lower(name);
    var r := Assigned(hs, name, value);
    var m := names[key := name];
    var w := Without(hs, key);
    forall i | 0 <= i < |r| ensures Lower(r[i].0) in m && m[Lower(r[i].0)] == r[i].0 {
      if i < |w| {
        assert r[i] == w[i] && w[i] in w;
        var j :| 0 <= j < |hs| && hs[j] == w[i];
      }
    }
    if i :| 0 <= i < |hs| && Lower(hs[i].0) == key {
      WithoutOne(hs, i, key);
      assert key in names;
    } else {
      WithoutNone(hs, key);
      RegistryCovers(hs, names);
    }
  }

  lemma {:induction false} SubsetSize<T>(a: set<T>, b: set<T>)
    requires a <= b
    ensures |a| <= |b|
    decreases |a|
  {
    if a != {} {
      var x :| x in a;
      SubsetSize(a - {x}, b - {x});
    }
  }

  /** Every registered lowercased name is the lowercase of some entry's name. */
  lemma RegistryCovers(hs: Entries, names: map<string, string>)
    requires FoldedDistinct(hs)
    requires forall i | 0 <= i < |hs| :: Lower(hs[i].0) in names && names[Lower(hs[i].0)] == hs[i].0
    requires |names| == |hs|
    ensures names.Keys == LoweredNames(hs)
  {
    var lowered := LoweredNames(hs);
    assert lowered <= names.Keys;
    SizeOfLowered(hs);
    if key :| key in names.Keys && key !in lowered {
      SubsetSize(lowered, names.Keys - {key});
      assert false;
    }
  }
}
