/**
 * The Content-Disposition header (section 4.1 of RFC 6266): a disposition
 * type with optional filename and field-name parameters.
 */
module ContentDisposition {
  import opened Wrappers
  import opened PhpString
  import opened HeaderParams

  const Name := "Content-Disposition"
  const Inline := "inline"
  const Attachment := "attachment"

  datatype ContentDisposition = ContentDisposition(disposition: string, filename: Option<string>, fieldname: Option<string>)

  function Disposition(c: ContentDisposition): (r: string)
    ensures ContentDisposition(r, c.filename, c.fieldname) == c
  {
    c.disposition
  }

  function Filename(c: ContentDisposition): (r: Option<string>)
    ensures ContentDisposition(c.disposition, r, c.fieldname) == c
  {
    c.filename
  }

  function Fieldname(c: ContentDisposition): (r: Option<string>)
    ensures ContentDisposition(c.disposition, c.filename, r) == c
  {
    c.fieldname
  }

  /** A value between double quotes. */
  function Quoted(v: string): string
  {
    "\"" + v + "\""
  }

  /** A quoted parameter piece `; name="value"`, written only when the value is truthy. */
  function Parameter(name: string, value: Option<string>): string
  {
    if value.Some? && Truthy(value.value) then "; " + name + "=" + Quoted(value.value) else ""
  }

  /** `write()`: the header value, the filename before the field name. */
  function Write(c: ContentDisposition): string
  {
    c.disposition + Parameter("filename", c.filename) + Parameter("name", c.fieldname)
  }

  /** A value read from a piece loses its leading and trailing double quotes. */
  function Unquote(value: Option<string>): Option<string>
  {
    match value
    case None => None
    case Some(v) => Some(Trim(v, '"'))
  }

  /** `read()` of the message's first Content-Disposition value, or of its absence. */
  function Read(header: Option<string>): (r: Option<ContentDisposition>)
    ensures r.None? <==> header.None?
    ensures r.Some? ==> r.value.disposition == Explode("; ", header.value)[0]
  {
    match header
    case None => None
    case Some(v) =>
      var parts := Explode("; ", v);
      var values := Scan(parts[1..], "filename", "name", true);
      Some(ContentDisposition(parts[0], Unquote(values.0), Unquote(values.1)))
  }

  /** The same reading, with the parameter loop as the source runs it. */
  method ReadHeader(header: Option<string>) returns (r: Option<ContentDisposition>)
    ensures r == Read(header)
  {
    if header.None? {
      return None;
    }
    var parts := Explode("; ", header.value);
    var filename, fieldname := ScanLoop(parts[1..], "filename", "name", true);
    r := Some(ContentDisposition(parts[0], Unquote(filename), Unquote(fieldname)));
  }

  /**
   * Each parameter comes from the last piece starting, ignoring case, with its
   * name; a piece starting with "filename" is never taken as the field name.
   */
  lemma ReadLastWins(v: string)
    ensures var parts := Explode("; ", v)[1..];
      && Read(Some(v)).value.filename == Unquote(ValueAt(parts, LastNamed(parts, "filename", None, true)))
      && Read(Some(v)).value.fieldname == Unquote(ValueAt(parts, LastNamed(parts, "name", Some("filename"), true)))
  {
    ScanLast(Explode("; ", v)[1..], "filename", "name", true);
  }

  /** A bare disposition has neither filename nor field name. */
  lemma ReadWithoutParameters(v: string)
    requires !Contains(v, "; ")
    ensures Read(Some(v)) == Some(ContentDisposition(v, None, None))
  {
    ExplodeWithout("; ", v);
  }

  /** Trimming quotes off a quoted value gives the value when its own edges are not quotes. */
  lemma QuotesTrimmed(v: string)
    requires v != [] && v[0] != '"' && v[|v| - 1] != '"'
    ensures Trim(Quoted(v), '"') == v && Trim(v, '"') == v
  {
    var q := Quoted(v);
    assert q[1..] == v + "\"";
    assert LTrim(q, '"') == LTrim(v + "\"", '"');
    assert LTrim(v + "\"", '"') == v + "\"";
    assert (v + "\"")[..|v|] == v;
    assert RTrim(v + "\"", '"') == RTrim(v, '"');
    TrimWithout(v, '"');
  }

  /** Unquoted values are accepted: `filename=F` reads as F. */
  lemma UnquotedFilename(d: string, f: string)
    requires !Contains(d, "; ") && !Contains(f, "; ") && '=' !in f
    requires f != [] && f[0] != '"' && f[|f| - 1] != '"'
    ensures Read(Some(d + "; " + "filename=" + f)) == Some(ContentDisposition(d, Some(f), None))
  {
    var piece := "filename=" + f;
    assert d + "; " + "filename=" + f == d + "; " + piece;
    TwoPieces(d, piece, f);
    assert Explode("; ", d + "; " + piece)[1..] == [piece];
    FilenameScan(piece, f);
    QuotesTrimmed(f);
  }

  lemma TwoPieces(d: string, piece: string, f: string)
    requires !Contains(d, "; ") && !Contains(f, "; ") && piece == "filename=" + f
    ensures Explode("; ", d + "; " + piece) == [d, piece]
  {
    ParameterFree("filename", f);
    assert "filename" + "=" + f == piece;
    SplitJoined([d, piece]);
    assert [d, piece][1..] == [piece];
  }

  lemma FilenameScan(piece: string, f: string)
    requires '=' !in f && piece == "filename=" + f
    ensures Scan([piece], "filename", "name", true) == (Some(f), None)
  {
    SecondOf("filename", f);
    NamedFilename(f);
    assert "filename" + "=" + f == piece;
    assert [piece][..0] == [];
  }

  lemma NamedFilename(rest: string)
    ensures Named("filename" + "=" + rest, "filename", true)
  {
    LowerConcat("filename", "=" + rest);
    assert "filename" + "=" + rest == "filename" + ("=" + rest);
  }

  lemma NamedName(rest: string)
    ensures Named("name" + "=" + rest, "name", true) && !Named("name" + "=" + rest, "filename", true)
  {
    LowerConcat("name", "=" + rest);
    assert "name" + "=" + rest == "name" + ("=" + rest);
    assert Lower("name" + "=" + rest)[0] == 'n';
  }

  /** A value that can be written and read back. */
  predicate Writable(value: Option<string>)
  {
    value.None? ||
    (var v := value.value; Truthy(v) && !Contains(v, "; ") && '=' !in v && v[0] != '"' && v[|v| - 1] != '"')
  }

  /** The pieces `write()` joins with "; ". */
  function Pieces(c: ContentDisposition): seq<string>
  {
    [c.disposition] + Piece("filename", c.filename) + Piece("name", c.fieldname)
  }

  function Piece(name: string, value: Option<string>): seq<string>
  {
    if value.Some? && Truthy(value.value) then [name + "=" + Quoted(value.value)] else []
  }

  /** Reading what was written gives it back, for values free of "; ", '=' and edge quotes that are not falsy. */
  lemma RoundTrip(c: ContentDisposition)
    requires !Contains(c.disposition, "; ")
    requires Writable(c.filename) && Writable(c.fieldname)
    ensures Read(Some(Write(c))) == Some(c)
  {
    JoinedPieces(c);
    PiecesFree(c);
    SplitJoined(Pieces(c));
    var pf, pn := Piece("filename", c.filename), Piece("name", c.fieldname);
    assert Pieces(c)[1..] == pf + pn;
    ScanPieces(c, pf, pn);
  }

  lemma QuotedFree(v: string)
    requires !Contains(v, "; ") && '=' !in v
    ensures !Contains(Quoted(v), "; ") && '=' !in Quoted(v)
  {
    NoSemicolon("\"");
    NoSeparatorJoined("\"", v);
    NoSeparatorJoined("\"" + v, "\"");
  }

  lemma PiecesFree(c: ContentDisposition)
    requires !Contains(c.disposition, "; ")
    requires Writable(c.filename) && Writable(c.fieldname)
    ensures forall i | 0 <= i < |Pieces(c)| :: !Contains(Pieces(c)[i], "; ")
  {
    if c.filename.Some? {
      QuotedFree(c.filename.value);
      ParameterFree("filename", Quoted(c.filename.value));
    }
    if c.fieldname.Some? {
      QuotedFree(c.fieldname.value);
      ParameterFree("name", Quoted(c.fieldname.value));
    }
  }

  lemma JoinedPieces(c: ContentDisposition)
    requires Writable(c.filename) && Writable(c.fieldname)
    ensures Implode("; ", Pieces(c)) == Write(c)
  {
    var t := c.disposition;
    var pf, pn := Piece("filename", c.filename), Piece("name", c.fieldname);
    if pf != [] {
      assert Parameter("filename", c.filename) == "; " + pf[0];
    }
    if pn != [] {
      assert Parameter("name", c.fieldname) == "; " + pn[0];
    }
    if pf != [] && pn != [] {
      assert Pieces(c) == [t, pf[0], pn[0]];
      Implode3("; ", t, pf[0], pn[0]);
    } else if pf != [] {
      assert Pieces(c) == [t, pf[0]];
      assert [t, pf[0]][1..] == [pf[0]];
    } else if pn != [] {
      assert Pieces(c) == [t, pn[0]];
      assert [t, pn[0]][1..] == [pn[0]];
    } else {
      assert Pieces(c) == [t];
    }
  }

  lemma ScanPieces(c: ContentDisposition, pf: seq<string>, pn: seq<string>)
    requires Writable(c.filename) && Writable(c.fieldname)
    requires pf == Piece("filename", c.filename) && pn == Piece("name", c.fieldname)
    ensures var values := Scan(pf + pn, "filename", "name", true);
      Unquote(values.0) == c.filename && Unquote(values.1) == c.fieldname
  {
    if pf != [] && pn != [] {
      assert pf + pn == [pf[0], pn[0]];
      ScanBoth(c.filename.value, c.fieldname.value);
    } else if pf != [] {
      assert pf + pn == [pf[0]];
      ScanFilenameOnly(c.filename.value);
    } else if pn != [] {
      assert pf + pn == [pn[0]];
      ScanNameOnly(c.fieldname.value);
    } else {
      assert pf + pn == [];
    }
  }

  /** Written filename and name pieces read back as both values. */
  lemma ScanBoth(f: string, n: string)
    requires Writable(Some(f)) && Writable(Some(n))
    ensures var values := Scan(["filename" + "=" + Quoted(f), "name" + "=" + Quoted(n)], "filename", "name", true);
      Unquote(values.0) == Some(f) && Unquote(values.1) == Some(n)
  {
    QuotedPiece("filename", f);
    NamedFilename(Quoted(f));
    QuotedPiece("name", n);
    NamedName(Quoted(n));
    ScanFilenameName("filename" + "=" + Quoted(f), "name" + "=" + Quoted(n));
  }

  /** A written filename piece alone reads back as the filename and no name. */
  lemma ScanFilenameOnly(f: string)
    requires Writable(Some(f))
    ensures var values := Scan(["filename" + "=" + Quoted(f)], "filename", "name", true);
      Unquote(values.0) == Some(f) && values.1.None?
  {
    QuotedPiece("filename", f);
    NamedFilename(Quoted(f));
    ScanSingle("filename" + "=" + Quoted(f));
  }

  /** A written name piece alone reads back as the name and no filename. */
  lemma ScanNameOnly(n: string)
    requires Writable(Some(n))
    ensures var values := Scan(["name" + "=" + Quoted(n)], "filename", "name", true);
      values.0.None? && Unquote(values.1) == Some(n)
  {
    QuotedPiece("name", n);
    NamedName(Quoted(n));
    ScanSingle("name" + "=" + Quoted(n));
  }

  lemma ScanSingle(p: string)
    ensures Scan([p], "filename", "name", true) ==
      if Named(p, "filename", true) then (Second(p), None) else if Named(p, "name", true) then (None, Second(p)) else (None, None)
  {
    assert [p][..0] == [];
  }

  lemma ScanFilenameName(p: string, q: string)
    requires Named(p, "filename", true) && Named(q, "name", true) && !Named(q, "filename", true)
    ensures Scan([p, q], "filename", "name", true) == (Second(p), Second(q))
  {
    assert [p, q][..1] == [p];
    ScanSingle(p);
  }

  /** A quoted piece reads back, unquoted, as its value. */
  lemma QuotedPiece(name: string, v: string)
    requires '=' !in name
    requires Writable(Some(v))
    ensures Unquote(Second(name + "=" + Quoted(v))) == Some(v)
  {
    QuotedFree(v);
    SecondOf(name, Quoted(v));
    QuotesTrimmed(v);
  }
}
