/**
 * A single HTTP header field (name and value) and the capture of a
 * name => value array into fields keyed by lowercased name.
 */
module Header {
  import opened Wrappers
  import opened PhpString
  import opened PhpArray

  datatype Field = Field(name: string, value: string)

  /** The line `name: value`. */
  function Line(f: Field): (r: string)
    ensures |r| == |f.name| + 2 + |f.value|
    ensures r[..|f.name|] == f.name && r[|f.name|..|f.name| + 2] == ": " && r[|f.name| + 2..] == f.value
  {
    f.name + ": " + f.value
  }

  /** A field renders as its line. */
  function ToString(f: Field): (r: string)
    ensures r == Line(f)
  {
    Line(f)
  }

  function Name(f: Field): (r: string)
    ensures Field(r, f.value) == f
    ensures |r| <= |Line(f)| && Line(f)[..|r|] == r
  {
    f.name
  }

  function Value(f: Field): (r: string)
    ensures Field(f.name, r) == f
    ensures |r| <= |Line(f)| && Line(f)[|Line(f)| - |r|..] == r
  {
    f.value
  }

  /** For a name without a colon, splitting the line at its first ':' gives the name back, and the value after one space. */
  lemma LineParses(f: Field)
    requires ':' !in f.name
    ensures ExplodeOnce(":", Line(f)) == [f.name, " " + f.value]
  {
    CharSepFree(':', f.name);
    assert Line(f) == f.name + ":" + (" " + f.value);
    ExplodeOnceAfter(":", f.name, " " + f.value);
  }

  // ---------------------------------------------------------------------------
  // Capture

  /** The captured array after the entries of `headers` have been visited in order. */
  function Captured(headers: seq<(string, string)>): seq<(string, Field)>
  {
    if headers == [] then []
    else
      var last := headers[|headers| - 1];
      Put(Captured(headers[..|headers| - 1]), Lower(last.0), Field(last.0, last.1))
  }

  /** The last entry of `headers` whose lowercased name is `key`. */
  function LastFolded(headers: seq<(string, string)>, key: string): Option<Field>
  {
    if headers == [] then None
    else
      var last := headers[|headers| - 1];
      if Lower(last.0) == key then Some(Field(last.0, last.1)) else LastFolded(headers[..|headers| - 1], key)
  }

  /** Walks the entries once, keying each by its lowercased name. */
  method Capture(headers: seq<(string, string)>) returns (captured: seq<(string, Field)>)
    ensures captured == Captured(headers)
  {
    captured := [];
    var i := 0;
    while i < |headers|
      invariant 0 <= i <= |headers|
      invariant captured == Captured(headers[..i])
    {
      assert headers[..i + 1][..i] == headers[..i];
      captured := Put(captured, Lower(headers[i].0), Field(headers[i].0, headers[i].1));
      i := i + 1;
    }
    assert headers[..i] == headers;
  }

  /** Nothing in, nothing out. */
  lemma CaptureEmpty()
    ensures Captured([]) == []
  {
  }

  /** Names differing only in case collapse onto one key, which holds the last of them. */
  lemma {:induction false} CapturedGet(headers: seq<(string, string)>, key: string)
    ensures Get(Captured(headers), key) == LastFolded(headers, key)
    decreases |headers|
  {
    if headers != [] {
      var last := headers[|headers| - 1];
      var prefix := headers[..|headers| - 1];
      CapturedGet(prefix, key);
      PutGet(Captured(prefix), Lower(last.0), Field(last.0, last.1));
    }
  }

  /** Every key is lowercase, is the lowercase of the name its field keeps, and occurs once. */
  lemma {:induction false} CapturedKeys(headers: seq<(string, string)>)
    ensures DistinctKeys(Captured(headers))
    ensures forall e | e in Captured(headers) :: e.0 == Lower(e.1.name) && IsLower(e.0) && e.1 in Fields(headers)
    decreases |headers|
  {
    if headers != [] {
      var last := headers[|headers| - 1];
      var prefix := headers[..|headers| - 1];
      CapturedKeys(prefix);
      PutDistinct(Captured(prefix), Lower(last.0), Field(last.0, last.1));
      PutEntries(Captured(prefix), Lower(last.0), Field(last.0, last.1));
      LowerIsLower(last.0);
      assert Fields(headers) == Fields(prefix) + [Field(last.0, last.1)];
    }
  }

  /** The fields of the input entries, in order. */
  function Fields(headers: seq<(string, string)>): (r: seq<Field>)
    ensures |r| == |headers| && forall i | 0 <= i < |headers| :: r[i] == Field(headers[i].0, headers[i].1)
  {
    seq(|headers|, i requires 0 <= i < |headers| => Field(headers[i].0, headers[i].1))
  }
}
