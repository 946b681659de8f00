/**
 * The parameter scan shared by the Content-Type and Content-Disposition
 * readers: a header value split on "; ", its first piece the main value,
 * each later piece compared with two parameter names in turn.
 */
module HeaderParams {
  import opened Wrappers
  import opened PhpString

  /** `list(, $x) = explode('=', $part)`: the text between the first and second '=', or null. */
  function Second(part: string): (r: Option<string>)
    ensures r.Some? <==> '=' in part
  {
    var pieces := Explode("=", part);
    if '=' !in part then
      CharSepFree('=', part);
      ExplodeWithout("=", part);
      None
    else
      assert Contains(part, "=") by {
        var i :| 0 <= i < |part| && part[i] == '=';
        assert part[i..i + 1] == "=";
        assert At(part, "=", i);
      }
      UnequalPieces(part);
      Some(pieces[1])
  }

  /** What `Second` reads is the text after the first '=' of the piece, up to the next '=' or the end. */
  lemma SecondValue(part: string)
    ensures Second(part).Some? ==> AfterFirstEquals(part, Second(part).value)
  {
    if '=' in part {
      assert Contains(part, "=") by {
        var i :| 0 <= i < |part| && part[i] == '=';
        assert part[i..i + 1] == "=";
        assert At(part, "=", i);
      }
      UnequalPieces(part);
      SecondSpan(part);
    }
  }

  /** `v` is the text from just after the first '=' of `part` up to the next '=' or the end. */
  predicate AfterFirstEquals(part: string, v: string)
  {
    exists i | 0 <= i < |part| && part[i] == '=' ::
      && '=' !in part[..i] && '=' !in v
      && i + 1 + |v| <= |part| && part[i + 1..i + 1 + |v|] == v
      && (i + 1 + |v| == |part| || part[i + 1 + |v|] == '=')
  }

  /** The second piece of a string holding '=' is the text after its first '=', up to the next. */
  lemma SecondSpan(part: string)
    requires |Explode("=", part)| >= 2
    ensures AfterFirstEquals(part, Explode("=", part)[1])
  {
    var pieces := Explode("=", part);
    ImplodeExplode("=", part);
    ExplodeCharFree('=', part);
    assert '=' !in pieces[0] && '=' !in pieces[1];
    assert Implode("=", pieces) == pieces[0] + "=" + Implode("=", pieces[1..]);
    JoinedHead(pieces[1..]);
    AfterFirstAt(part, pieces[0], Implode("=", pieces[1..]), pieces[1]);
  }

  /** Pieces joined by '=' begin with the first piece, followed by the end or an '='. */
  lemma JoinedHead(pieces: seq<string>)
    requires |pieces| >= 1
    ensures var t := Implode("=", pieces); |pieces[0]| <= |t| && t[..|pieces[0]|] == pieces[0]
    ensures var t := Implode("=", pieces); |t| == |pieces[0]| || t[|pieces[0]|] == '='
  {
  }

  lemma AfterFirstAt(part: string, a: string, t: string, v: string)
    requires part == a + "=" + t && '=' !in a && '=' !in v
    requires |v| <= |t| && t[..|v|] == v && (|t| == |v| || t[|v|] == '=')
    ensures AfterFirstEquals(part, v)
  {
    var i := |a|;
    assert part[i] == '=' && part[..i] == a;
    assert part[i + 1..] == t;
    assert part[i + 1..i + 1 + |v|] == v;
  }

  /** A string holding '=' explodes into at least two pieces. */
  lemma UnequalPieces(s: string)
    requires Contains(s, "=")
    ensures |Explode("=", s)| >= 2
  {
    ImplodeExplode("=", s);
    if |Explode("=", s)| == 1 {
      assert Explode("=", s) == [Explode("=", s)[0]];
      ExplodeCharFree('=', s);
      assert false;
    }
  }

  /** `strpos($part, $name) === 0`, or `stripos` when `ignoreCase`. */
  predicate Named(part: string, name: string, ignoreCase: bool)
  {
    if ignoreCase then StartsWithIgnoringCase(part, name) else StartsWith(part, name)
  }

  /**
   * The two parameter values after the `foreach` over `parts` has run: a
   * piece named `first` sets the first value (and is not compared further),
   * otherwise a piece named `second` sets the second value.
   */
  function Scan(parts: seq<string>, first: string, second: string, ignoreCase: bool): (Option<string>, Option<string>)
  {
    if parts == [] then (None, None)
    else
      var prev := Scan(parts[..|parts| - 1], first, second, ignoreCase);
      var part := parts[|parts| - 1];
      if Named(part, first, ignoreCase) then (Second(part), prev.1)
      else if Named(part, second, ignoreCase) then (prev.0, Second(part))
      else prev
  }

  /** The loop itself, walking the pieces after the first. */
  method ScanLoop(parts: seq<string>, first: string, second: string, ignoreCase: bool) returns (a: Option<string>, b: Option<string>)
    ensures (a, b) == Scan(parts, first, second, ignoreCase)
  {
    a, b := None, None;
    var i := 0;
    while i < |parts|
      invariant 0 <= i <= |parts|
      invariant (a, b) == Scan(parts[..i], first, second, ignoreCase)
    {
      assert parts[..i + 1][..i] == parts[..i];
      var part := parts[i];
      if Named(part, first, ignoreCase) {
        a := Second(part);
      } else if Named(part, second, ignoreCase) {
        b := Second(part);
      }
      i := i + 1;
    }
    assert parts[..i] == parts;
  }

  /** The index of the last piece named `name`, skipping pieces named `before` when given. */
  function LastNamed(parts: seq<string>, name: string, before: Option<string>, ignoreCase: bool): (r: Option<nat>)
    ensures r.Some? ==> r.value < |parts| && Named(parts[r.value], name, ignoreCase)
    ensures r.Some? ==> before.None? || !Named(parts[r.value], before.value, ignoreCase)
    ensures r.Some? ==> forall j | r.value < j < |parts| :: !Named(parts[j], name, ignoreCase) || (before.Some? && Named(parts[j], before.value, ignoreCase))
    ensures r.None? ==> forall j | 0 <= j < |parts| :: !Named(parts[j], name, ignoreCase) || (before.Some? && Named(parts[j], before.value, ignoreCase))
  {
    if parts == [] then None
    else
      var last := parts[|parts| - 1];
      if Named(last, name, ignoreCase) && (before.None? || !Named(last, before.value, ignoreCase)) then Some(|parts| - 1)
      else LastNamed(parts[..|parts| - 1], name, before, ignoreCase)
  }

  /** The value found for a name: that of its last piece, or null when no piece has the name. */
  function ValueAt(parts: seq<string>, i: Option<nat>): Option<string>
    requires i.Some? ==> i.value < |parts|
  {
    match i
    case None => None
    case Some(k) => Second(parts[k])
  }

  /** The last piece wins: each value comes from the last piece carrying its name, and other pieces do not matter. */
  lemma {:induction false} ScanLast(parts: seq<string>, first: string, second: string, ignoreCase: bool)
    ensures Scan(parts, first, second, ignoreCase).0 == ValueAt(parts, LastNamed(parts, first, None, ignoreCase))
    ensures Scan(parts, first, second, ignoreCase).1 == ValueAt(parts, LastNamed(parts, second, Some(first), ignoreCase))
    decreases |parts|
  {
    if parts != [] {
      var front := parts[..|parts| - 1];
      ScanLast(front, first, second, ignoreCase);
      var l1 := LastNamed(front, first, None, ignoreCase);
      var l2 := LastNamed(front, second, Some(first), ignoreCase);
      assert l1.Some? ==> front[l1.value] == parts[l1.value];
      assert l2.Some? ==> front[l2.value] == parts[l2.value];
    }
  }

  // ---------------------------------------------------------------------------
  // Splitting on "; "

  /** Two pieces free of "; " stay free of it when joined, unless the join itself writes "; ". */
  lemma NoSeparatorJoined(a: string, b: string)
    requires !Contains(a, "; ") && !Contains(b, "; ")
    requires !(|a| > 0 && |b| > 0 && a[|a| - 1] == ';' && b[0] == ' ')
    ensures !Contains(a + b, "; ")
  {
    var s := a + b;
    forall i | 0 <= i <= |s| ensures !At(s, "; ", i) {
      if i + 2 > |s| {
      } else if i + 2 <= |a| {
        assert s[i..i + 2] == a[i..i + 2];
        assert !At(a, "; ", i);
      } else if i >= |a| {
        assert s[i..i + 2] == b[i - |a|..i - |a| + 2];
        assert !At(b, "; ", i - |a|);
      } else {
        assert s[i..i + 2] == [a[|a| - 1], b[0]];
      }
    }
  }

  /** Pieces free of "; " joined by "; " split back into exactly those pieces. */
  lemma {:induction false} SplitJoined(pieces: seq<string>)
    requires |pieces| >= 1
    requires forall i | 0 <= i < |pieces| :: !Contains(pieces[i], "; ")
    ensures Explode("; ", Implode("; ", pieces)) == pieces
    decreases |pieces|
  {
    if |pieces| == 1 {
      ExplodeWithout("; ", pieces[0]);
    } else {
      SemicolonSpaceFree(pieces[0]);
      SplitJoined(pieces[1..]);
      ExplodeAfter("; ", pieces[0], Implode("; ", pieces[1..]));
    }
  }

  /** `name=value` with `value` free of '=' gives `value` back. */
  lemma SecondOf(name: string, value: string)
    requires '=' !in name && '=' !in value
    ensures Second(name + "=" + value) == Some(value)
  {
    CharSepFree('=', name);
    CharSepFree('=', value);
    ExplodeAfter("=", name, value);
    ExplodeWithout("=", value);
    assert (name + "=" + value)[|name|] == '=';
  }

  /** Text without ';' holds no "; ". */
  lemma NoSemicolon(x: string)
    requires ';' !in x
    ensures !Contains(x, "; ")
  {
    forall i | 0 <= i <= |x| ensures !At(x, "; ", i) {
      if i + 2 <= |x| {
        assert x[i..i + 2][0] == x[i];
      }
    }
  }

  /** `name=value` holds no "; " when `value` holds none and `name` has no ';'. */
  lemma ParameterFree(name: string, value: string)
    requires ';' !in name && !Contains(value, "; ")
    ensures !Contains(name + "=" + value, "; ")
  {
    NoSemicolon(name + "=");
    NoSeparatorJoined(name + "=", value);
    assert name + "=" + value == (name + "=") + value;
  }

  lemma Implode3(sep: string, a: string, b: string, d: string)
    ensures Implode(sep, [a, b, d]) == a + sep + b + sep + d
  {
    assert [a, b, d][1..] == [b, d];
    assert [b, d][1..] == [d];
    assert Implode(sep, [b, d]) == b + sep + d;
    assert Implode(sep, [a, b, d]) == a + sep + (b + sep + d);
  }
}
