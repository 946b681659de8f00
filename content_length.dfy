/**
 * The Content-Length header: a length written in decimal, and read back
 * through PHP's coercion of a numeric string to an `int` parameter.
 */
module ContentLength {
  import opened Wrappers
  import opened Decimal

  const Name := "Content-Length"

  /** The length is a PHP `int`. */
  datatype ContentLength = ContentLength(length: Long)

  /** The value passed to the constructor is not an integer string within the range of `int` (PHP raises a TypeError). */
  datatype Error = TypeError(value: string)

  function Length(c: ContentLength): (r: Long)
    ensures ContentLength(r) == c
  {
    c.length
  }

  /** `write()`: the length in decimal, as PHP turns an `int` header value into text. */
  function Write(c: ContentLength): (r: string)
    ensures ParseInteger(r) == Some(c.length) && IsCanonicalInt(r)
  {
    IntTextRoundTrip(c.length);
    IntText(c.length)
  }

  /**
   * `read()` of the message's first Content-Length value, or of its absence:
   * an integer string within the range of `int` becomes the length, anything
   * else is refused.
   */
  function Read(header: Option<string>): (r: Result<Option<ContentLength>, Error>)
    ensures header.None? <==> r == Success(None)
    ensures r.Failure? <==> header.Some? && (ParseInteger(header.value).None? || !InLong(ParseInteger(header.value).value))
    ensures r.Failure? ==> r.error == TypeError(header.value)
    ensures r.Success? && header.Some? ==> r.value == Some(ContentLength(ParseInteger(header.value).value))
  {
    match header
    case None => Success(None)
    case Some(v) =>
      match ParseInteger(v)
      case None => Failure(TypeError(v))
      case Some(n) => if InLong(n) then Success(Some(ContentLength(n))) else Failure(TypeError(v))
  }

  // ---------------------------------------------------------------------------
  // Properties

  /** Every length written is read back unchanged. */
  lemma RoundTrip(c: ContentLength)
    ensures Read(Some(Write(c))) == Success(Some(c))
  {
  }

  /** A length read from its canonical decimal text writes back to that very text; text beyond the range of `int` is refused. */
  lemma WriteRead(v: string)
    requires IsCanonicalInt(v)
    ensures ParseInteger(v).Some?
    ensures InLong(ParseInteger(v).value) ==> Read(Some(v)).Success? && Read(Some(v)).value.Some?
    ensures InLong(ParseInteger(v).value) ==> Write(Read(Some(v)).value.value) == v
    ensures !InLong(ParseInteger(v).value) ==> Read(Some(v)) == Failure(TypeError(v))
  {
    CanonicalIntText(v);
  }

  /** The decimal text of an integer beyond the range of `int` (such as 9223372036854775808) is refused. */
  lemma ReadBeyondLong(n: int)
    requires !InLong(n)
    ensures Read(Some(IntText(n))) == Failure(TypeError(IntText(n)))
  {
    IntTextRoundTrip(n);
  }
}
