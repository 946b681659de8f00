/**
 * The PHP string functions the library leans on, restated over `seq<char>`:
 * truthiness, ASCII case mapping (`strtolower`, `strtoupper`), `explode`,
 * `implode`, the single-character forms of `trim`, `ltrim` and `rtrim`, and
 * prefix tests (`strpos(...) === 0`, `stripos(...) === 0`).
 */
module PhpString {
  import opened Wrappers

  /** A string in a boolean context: `""` and `"0"` are false, every other string is true. */
  predicate Truthy(s: string)
  {
    s != "" && s != "0"
  }

  function LowerChar(c: char): char
  {
    if 'A' <= c <= 'Z' then (c as int + 32) as char else c
  }

  function UpperChar(c: char): char
  {
    if 'a' <= c <= 'z' then (c as int - 32) as char else c
  }

  /** `strtolower`: ASCII letters only, every other character unchanged. */
  function Lower(s: string): (r: string)
  {
    seq(|s|, i requires 0 <= i < |s| => LowerChar(s[i]))
  }

  /** `strtoupper`: ASCII letters only, every other character unchanged. */
  function Upper(s: string): (r: string)
  {
    seq(|s|, i requires 0 <= i < |s| => UpperChar(s[i]))
  }

  predicate IsLower(s: string)
  {
    forall i | 0 <= i < |s| :: !('A' <= s[i] <= 'Z')
  }

  lemma LowerIsLower(s: string)
    ensures |Lower(s)| == |s| && IsLower(Lower(s))
    ensures IsLower(s) ==> Lower(s) == s
  {
  }

  lemma LowerConcat(a: string, b: string)
    ensures Lower(a + b) == Lower(a) + Lower(b)
  {
  }

  /** `sep` occurs in `s` starting at index `i`. */
  predicate At(s: string, sep: string, i: int)
  {
    0 <= i && i + |sep| <= |s| && s[i..i + |sep|] == sep
  }

  predicate Contains(s: string, sep: string)
  {
    exists i | 0 <= i <= |s| :: At(s, sep, i)
  }

  /** `a + sep` holds no occurrence of `sep` that starts inside `a`. */
  predicate SepFree(sep: string, a: string)
  {
    forall i | 0 <= i < |a| :: !At(a + sep, sep, i)
  }

  function StartsWith(s: string, prefix: string): bool
  {
    |prefix| <= |s| && s[..|prefix|] == prefix
  }

  /** `stripos($s, $prefix) === 0`, with ASCII case folding. */
  function StartsWithIgnoringCase(s: string, prefix: string): bool
  {
    StartsWith(Lower(s), Lower(prefix))
  }

  /**
   * `explode($sep, $s)` without a limit: the pieces between the leftmost
   * non-overlapping occurrences of `sep`, scanning from the left.
   */
  function Explode(sep: string, s: string): (r: seq<string>)
    requires |sep| > 0
    ensures |r| >= 1
    decreases |s|
  {
    if |s| < |sep| then [s]
    else if s[..|sep|] == sep then [""] + Explode(sep, s[|sep|..])
    else
      var rest := Explode(sep, s[1..]);
      [[s[0]] + rest[0]] + rest[1..]
  }

  /** The first index at or after `from` where `sep` occurs in `s`. */
  function FirstAt(s: string, sep: string, from: nat): (r: Option<nat>)
    ensures r.Some? ==> from <= r.value && At(s, sep, r.value)
    ensures r.Some? ==> forall j | from <= j < r.value :: !At(s, sep, j)
    ensures r.None? ==> forall j | from <= j :: !At(s, sep, j)
    decreases |s| - from
  {
    if from + |sep| > |s| then None
    else if s[from..from + |sep|] == sep then Some(from)
    else FirstAt(s, sep, from + 1)
  }

  /** `explode($sep, $s, 2)`: split at the first occurrence only. */
  function ExplodeOnce(sep: string, s: string): (r: seq<string>)
    requires |sep| > 0
  {
    match FirstAt(s, sep, 0)
    case None => [s]
    case Some(i) => [s[..i], s[i + |sep|..]]
  }

  /** `implode($sep, $parts)`. */
  function Implode(sep: string, parts: seq<string>): string
  {
    if parts == [] then ""
    else if |parts| == 1 then parts[0]
    else parts[0] + sep + Implode(sep, parts[1..])
  }

  /** `ltrim($s, $c)` with a one-character list. */
  function LTrim(s: string, c: char): (r: string)
    ensures r == [] || r[0] != c
    ensures |r| <= |s| && r == s[|s| - |r|..]
  {
    if s != [] && s[0] == c then LTrim(s[1..], c) else s
  }

  /** `rtrim($s, $c)` with a one-character list. */
  function RTrim(s: string, c: char): (r: string)
    ensures r == [] || r[|r| - 1] != c
    ensures |r| <= |s| && r == s[..|r|]
    ensures forall i | |r| <= i < |s| :: s[i] == c
  {
    if s != [] && s[|s| - 1] == c then RTrim(s[..|s| - 1], c) else s
  }

  /** `trim($s, $c)` with a one-character list. */
  function Trim(s: string, c: char): string
  {
    RTrim(LTrim(s, c), c)
  }

  lemma ImplodeCons(sep: string, c: char, parts: seq<string>)
    requires |parts| >= 1
    ensures Implode(sep, [[c] + parts[0]] + parts[1..]) == [c] + Implode(sep, parts)
  {
    if |parts| > 1 {
      assert ([[c] + parts[0]] + parts[1..])[1..] == parts[1..];
    }
  }

  lemma {:induction false} ImplodeExplode(sep: string, s: string)
    requires |sep| > 0
    ensures Implode(sep, Explode(sep, s)) == s
    decreases |s|
  {
    if |s| < |sep| {
    } else if s[..|sep|] == sep {
      var rest := Explode(sep, s[|sep|..]);
      ImplodeExplode(sep, s[|sep|..]);
      assert ([""] + rest)[1..] == rest;
      assert s == sep + s[|sep|..];
    } else {
      var rest := Explode(sep, s[1..]);
      ImplodeExplode(sep, s[1..]);
      ImplodeCons(sep, s[0], rest);
      assert s == [s[0]] + s[1..];
    }
  }

  lemma {:induction false} ExplodeWithout(sep: string, a: string)
    requires |sep| > 0
    requires !Contains(a, sep)
    ensures Explode(sep, a) == [a]
    decreases |a|
  {
    if |a| < |sep| {
    } else {
      assert !At(a, sep, 0);
      assert a[..|sep|] != sep;
      forall i | At(a[1..], sep, i) ensures At(a, sep, i + 1) {
        assert a[1..][i..i + |sep|] == a[i + 1..i + 1 + |sep|];
      }
      ExplodeWithout(sep, a[1..]);
      assert a == [a[0]] + a[1..];
    }
  }

  lemma {:induction false} ExplodeAfter(sep: string, a: string, b: string)
    requires |sep| > 0
    requires SepFree(sep, a)
    ensures Explode(sep, a + sep + b) == [a] + Explode(sep, b)
    decreases |a|
  {
    if a == [] {
      assert a + sep + b == sep + b;
      ExplodeLeading(sep, b);
    } else {
      SepFreeTail(sep, a, b);
      ExplodeAfter(sep, a[1..], b);
      ExplodeCons(sep, a + sep + b);
      assert (a + sep + b)[1..] == a[1..] + sep + b;
      assert [a[0]] + a[1..] == a;
    }
  }

  /** A leading separator gives an empty first piece. */
  lemma ExplodeLeading(sep: string, b: string)
    requires |sep| > 0
    ensures Explode(sep, sep + b) == [""] + Explode(sep, b)
  {
    assert (sep + b)[..|sep|] == sep && (sep + b)[|sep|..] == b;
  }

  /** Without a separator at the front, the first character joins the first piece. */
  lemma ExplodeCons(sep: string, s: string)
    requires |sep| > 0 && |s| >= |sep| && s[..|sep|] != sep
    ensures Explode(sep, s) == [[s[0]] + Explode(sep, s[1..])[0]] + Explode(sep, s[1..])[1..]
  {
  }

  /** What `SepFree` gives one character further on. */
  lemma SepFreeTail(sep: string, a: string, b: string)
    requires |sep| > 0 && SepFree(sep, a) && a != []
    ensures SepFree(sep, a[1..])
    ensures |a + sep + b| >= |sep| && (a + sep + b)[..|sep|] != sep
    ensures (a + sep + b)[0] == a[0]
  {
    assert !At(a + sep, sep, 0);
    assert (a + sep)[..|sep|] == (a + sep + b)[..|sep|];
    forall i | 0 <= i < |a[1..]| ensures !At(a[1..] + sep, sep, i) {
      assert (a[1..] + sep)[i..] == (a + sep)[i + 1..];
      assert !At(a + sep, sep, i + 1);
    }
  }

  lemma {:induction false} FirstAtIs(s: string, sep: string, from: nat, k: nat)
    requires from <= k && At(s, sep, k)
    requires forall j | from <= j < k :: !At(s, sep, j)
    ensures FirstAt(s, sep, from) == Some(k)
    decreases k - from
  {
    if from < k {
      assert !At(s, sep, from);
      FirstAtIs(s, sep, from + 1, k);
    }
  }

  /** Splitting `a + sep + b` at the first occurrence gives back `a` and `b`. */
  lemma ExplodeOnceAfter(sep: string, a: string, b: string)
    requires |sep| > 0
    requires SepFree(sep, a)
    ensures ExplodeOnce(sep, a + sep + b) == [a, b]
  {
    var s := a + sep + b;
    forall j | 0 <= j < |a| ensures !At(s, sep, j) {
      assert !At(a + sep, sep, j);
      assert s[j..j + |sep|] == (a + sep)[j..j + |sep|];
    }
    assert s[|a|..|a| + |sep|] == sep;
    FirstAtIs(s, sep, 0, |a|);
    assert s[..|a|] == a && s[|a| + |sep|..] == b;
  }

  /** Two pieces exactly when `sep` occurs; then they rebuild the string around its first occurrence. */
  lemma ExplodeOncePieces(sep: string, s: string)
    requires |sep| > 0
    ensures 1 <= |ExplodeOnce(sep, s)| <= 2
    ensures |ExplodeOnce(sep, s)| == 2 <==> Contains(s, sep)
    ensures |ExplodeOnce(sep, s)| == 1 ==> ExplodeOnce(sep, s) == [s]
    ensures |ExplodeOnce(sep, s)| == 2 ==>
      s == ExplodeOnce(sep, s)[0] + sep + ExplodeOnce(sep, s)[1] && !Contains(ExplodeOnce(sep, s)[0], sep)
  {
    match FirstAt(s, sep, 0)
    case None =>
    case Some(i) =>
      var p := s[..i];
      forall j | 0 <= j <= |p| ensures !At(p, sep, j) {
        if j + |sep| <= |p| {
          assert j < i;
          assert !At(s, sep, j);
          assert p[j..j + |sep|] == s[j..j + |sep|];
        }
      }
      assert s == s[..i] + sep + s[i + |sep|..];
  }

  /** A one-character separator is free in any piece that does not contain it. */
  lemma CharSepFree(c: char, a: string)
    requires c !in a
    ensures SepFree([c], a) && !Contains(a, [c])
  {
    forall i | 0 <= i < |a| ensures !At(a, [c], i) {
      assert a[i..i + 1][0] == a[i];
    }
    forall i | 0 <= i < |a| ensures !At(a + [c], [c], i) {
      assert (a + [c])[i..i + 1][0] == a[i];
    }
  }

  /** The two-character separator "; " is free in any piece that does not contain it. */
  lemma SemicolonSpaceFree(a: string)
    requires !Contains(a, "; ")
    ensures SepFree("; ", a)
  {
    forall i | 0 <= i < |a| ensures !At(a + "; ", "; ", i) {
      if i + 2 <= |a| {
        assert (a + "; ")[i..i + 2] == a[i..i + 2];
        assert !At(a, "; ", i);
      } else {
        assert (a + "; ")[i + 1] == ';';
      }
    }
  }

  lemma {:induction false} TrimWithout(s: string, c: char)
    requires s == [] || (s[0] != c && s[|s| - 1] != c)
    ensures Trim(s, c) == s
  {
  }

  lemma {:induction false} RTrimIdempotent(s: string, c: char)
    ensures RTrim(RTrim(s, c), c) == RTrim(s, c)
  {
  }

  lemma UpperIdempotent(s: string)
    ensures Upper(Upper(s)) == Upper(s)
  {
  }

  /** `implode` over two non-empty lists puts one separator between their joins. */
  lemma {:induction false} ImplodeConcat(sep: string, p: seq<string>, q: seq<string>)
    requires |p| >= 1 && |q| >= 1
    ensures Implode(sep, p + q) == Implode(sep, p) + sep + Implode(sep, q)
    decreases |p|
  {
    if |p| == 1 {
      assert (p + q)[0] == p[0] && (p + q)[1..] == q;
    } else {
      ImplodeConcat(sep, p[1..], q);
      assert (p + q)[0] == p[0] && (p + q)[1..] == p[1..] + q;
    }
  }

  /** Pieces free of `c` joined by `c` split back into exactly those pieces. */
  lemma {:induction false} ExplodeCharImplode(c: char, pieces: seq<string>)
    requires |pieces| >= 1
    requires forall i | 0 <= i < |pieces| :: c !in pieces[i]
    ensures Explode([c], Implode([c], pieces)) == pieces
    decreases |pieces|
  {
    CharSepFree(c, pieces[0]);
    if |pieces| == 1 {
      ExplodeWithout([c], pieces[0]);
    } else {
      forall i | 0 <= i < |pieces[1..]| ensures c !in pieces[1..][i] {
        assert pieces[1..][i] == pieces[i + 1];
      }
      ExplodeCharImplode(c, pieces[1..]);
      ExplodeAfter([c], pieces[0], Implode([c], pieces[1..]));
    }
  }

  /** With a one-character separator, splitting `a + c + b` splits `a` and `b` apart. */
  lemma ExplodeCharConcat(c: char, a: string, b: string)
    ensures Explode([c], a + [c] + b) == Explode([c], a) + Explode([c], b)
  {
    var p, q := Explode([c], a), Explode([c], b);
    ImplodeExplode([c], a);
    ImplodeExplode([c], b);
    ImplodeConcat([c], p, q);
    ExplodeCharFree(c, a);
    ExplodeCharFree(c, b);
    forall i | 0 <= i < |p + q| ensures c !in (p + q)[i] {
      if i >= |p| {
        assert (p + q)[i] == q[i - |p|];
      }
    }
    ExplodeCharImplode(c, p + q);
    assert Implode([c], p + q) == a + [c] + b;
  }

  /** No piece of a one-character `explode` contains the separator. */
  lemma {:induction false} ExplodeCharFree(c: char, s: string)
    ensures forall i | 0 <= i < |Explode([c], s)| :: c !in Explode([c], s)[i]
    decreases |s|
  {
    if |s| >= 1 {
      ExplodeCharFree(c, s[1..]);
      if s[..1] != [c] {
        assert s[0] != c;
      }
    }
  }
}
