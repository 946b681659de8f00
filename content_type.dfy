/**
 * The Content-Type header (section 3.1.1.5 of RFC 7231): a media type with
 * optional charset and boundary parameters.
 */
module ContentType {
  import opened Wrappers
  import opened PhpString
  import opened HeaderParams

  const Name := "Content-Type"

  datatype ContentType = ContentType(mediaType: string, charset: Option<string>, boundary: Option<string>)

  function MediaType(c: ContentType): (r: string)
    ensures r == c.mediaType && ContentType(r, c.charset, c.boundary) == c
  {
    c.mediaType
  }

  function Charset(c: ContentType): (r: Option<string>)
    ensures ContentType(c.mediaType, r, c.boundary) == c
  {
    c.charset
  }

  function Boundary(c: ContentType): (r: Option<string>)
    ensures ContentType(c.mediaType, c.charset, r) == c
  {
    c.boundary
  }

  /** A parameter piece `; name=value`, written only when the value is truthy. */
  function Parameter(name: string, value: Option<string>): string
  {
    if value.Some? && Truthy(value.value) then "; " + name + "=" + value.value else ""
  }

  /** `write()`: the header value. */
  function Write(c: ContentType): string
  {
    c.mediaType + Parameter("charset", c.charset) + Parameter("boundary", c.boundary)
  }

  /** `read()` of the message's first Content-Type value, or of its absence. */
  function Read(header: Option<string>): (r: Option<ContentType>)
    ensures r.None? <==> header.None?
    ensures r.Some? ==> r.value.mediaType == Explode("; ", header.value)[0]
  {
    match header
    case None => None
    case Some(v) =>
      var parts := Explode("; ", v);
      var values := Scan(parts[1..], "charset", "boundary", false);
      Some(ContentType(parts[0], values.0, values.1))
  }

  /** The same reading, with the parameter loop as the source runs it. */
  method ReadHeader(header: Option<string>) returns (r: Option<ContentType>)
    ensures r == Read(header)
  {
    if header.None? {
      return None;
    }
    var parts := Explode("; ", header.value);
    var charset, boundary := ScanLoop(parts[1..], "charset", "boundary", false);
    r := Some(ContentType(parts[0], charset, boundary));
  }

  /**
   * Each parameter comes from the last piece starting (case-sensitively) with
   * its name; a piece starting with "charset" is never taken as a boundary.
   */
  lemma ReadLastWins(v: string)
    ensures var parts := Explode("; ", v)[1..];
      && Read(Some(v)).value.charset == ValueAt(parts, LastNamed(parts, "charset", None, false))
      && Read(Some(v)).value.boundary == ValueAt(parts, LastNamed(parts, "boundary", Some("charset"), false))
  {
    ScanLast(Explode("; ", v)[1..], "charset", "boundary", false);
  }

  /** A bare media type has neither charset nor boundary. */
  lemma ReadWithoutParameters(v: string)
    requires !Contains(v, "; ")
    ensures Read(Some(v)) == Some(ContentType(v, None, None))
  {
    ExplodeWithout("; ", v);
  }

  /** A parameter value that can be written and read back. */
  predicate Writable(value: Option<string>)
  {
    value.None? || (Truthy(value.value) && !Contains(value.value, "; ") && '=' !in value.value)
  }

  /** The pieces `write()` joins with "; ": the media type, then each truthy parameter as `name=value`. */
  function Pieces(c: ContentType): seq<string>
  {
    [c.mediaType] + Piece("charset", c.charset) + Piece("boundary", c.boundary)
  }

  function Piece(name: string, value: Option<string>): seq<string>
  {
    if value.Some? && Truthy(value.value) then [name + "=" + value.value] else []
  }

  /** Reading what was written gives it back, for values free of "; " and '=' that are not falsy. */
  lemma RoundTrip(c: ContentType)
    requires !Contains(c.mediaType, "; ")
    requires Writable(c.charset) && Writable(c.boundary)
    ensures Read(Some(Write(c))) == Some(c)
  {
    JoinedPieces(c);
    PiecesFree(c);
    SplitJoined(Pieces(c));
    var pc, pb := Piece("charset", c.charset), Piece("boundary", c.boundary);
    assert Pieces(c)[1..] == pc + pb;
    if c.charset.Some? {
      SecondOf("charset", c.charset.value);
    }
    if c.boundary.Some? {
      SecondOf("boundary", c.boundary.value);
    }
    ScanPieces(c, pc, pb);
  }

  lemma PiecesFree(c: ContentType)
    requires !Contains(c.mediaType, "; ")
    requires Writable(c.charset) && Writable(c.boundary)
    ensures forall i | 0 <= i < |Pieces(c)| :: !Contains(Pieces(c)[i], "; ")
  {
    if c.charset.Some? {
      ParameterFree("charset", c.charset.value);
    }
    if c.boundary.Some? {
      ParameterFree("boundary", c.boundary.value);
    }
  }

  lemma JoinedPieces(c: ContentType)
    requires Writable(c.charset) && Writable(c.boundary)
    ensures Implode("; ", Pieces(c)) == Write(c)
  {
    var t := c.mediaType;
    var pc, pb := Piece("charset", c.charset), Piece("boundary", c.boundary);
    if pc != [] {
      assert Parameter("charset", c.charset) == "; " + pc[0];
    }
    if pb != [] {
      assert Parameter("boundary", c.boundary) == "; " + pb[0];
    }
    if pc != [] && pb != [] {
      assert Pieces(c) == [t, pc[0], pb[0]];
      Implode3("; ", t, pc[0], pb[0]);
    } else if pc != [] {
      assert Pieces(c) == [t, pc[0]];
      assert [t, pc[0]][1..] == [pc[0]];
    } else if pb != [] {
      assert Pieces(c) == [t, pb[0]];
      assert [t, pb[0]][1..] == [pb[0]];
    } else {
      assert Pieces(c) == [t];
    }
  }

  lemma ScanPieces(c: ContentType, pc: seq<string>, pb: seq<string>)
    requires Writable(c.charset) && Writable(c.boundary)
    requires pc == Piece("charset", c.charset) && pb == Piece("boundary", c.boundary)
    requires c.charset.Some? ==> Second(pc[0]) == c.charset
    requires c.boundary.Some? ==> Second(pb[0]) == c.boundary
    ensures Scan(pc + pb, "charset", "boundary", false) == (c.charset, c.boundary)
  {
    if pb != [] {
      assert !StartsWith(pb[0], "charset") by {
        assert pb[0][0] == 'b';
      }
      assert (pc + pb)[..|pc + pb| - 1] == pc;
    } else {
      assert pc + pb == pc;
    }
    if pc != [] {
      assert pc[..0] == [];
    }
  }
}
