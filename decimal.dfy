/**
 * Decimal text of integers: PHP's `(string)$int` and `sprintf('%d', ...)`,
 * the integer-string forms PHP accepts where an `int` is expected, and the
 * canonical integer strings PHP turns into integer array keys.
 */
module Decimal {
  import opened Wrappers

  predicate IsDigit(c: char)
  {
    '0' <= c <= '9'
  }

  predicate AllDigits(s: string)
  {
    forall i | 0 <= i < |s| :: IsDigit(s[i])
  }

  function DigitValue(c: char): nat
    requires IsDigit(c)
  {
    c as int - '0' as int
  }

  function Digit(d: nat): (c: char)
    requires d < 10
    ensures IsDigit(c) && DigitValue(c) == d
  {
    ('0' as int + d) as char
  }

  /** The decimal text of a natural number, without leading zeros. */
  function NatText(n: nat): string
    decreases n
  {
    if n < 10 then [Digit(n)] else NatText(n / 10) + [Digit(n % 10)]
  }

  /** `(string)$i`: a minus sign for negative numbers, then the digits. */
  function IntText(i: int): string
  {
    if i < 0 then "-" + NatText(-i) else NatText(i)
  }

  /** The value of a string of digits, most significant first. */
  function DigitsValue(s: string): nat
    requires AllDigits(s)
  {
    if s == [] then 0 else DigitsValue(s[..|s| - 1]) * 10 + DigitValue(s[|s| - 1])
  }

  /**
   * An integer string PHP stores as an integer array key: "0", or digits
   * without a leading zero, optionally after a minus sign ("-0" is not one).
   */
  predicate IsCanonicalInt(s: string)
  {
    || s == "0"
    || (|s| > 0 && s[0] != '0' && AllDigits(s))
    || (|s| > 1 && s[0] == '-' && s[1] != '0' && AllDigits(s[1..]))
  }

  /** The range of PHP's 64-bit `int`. */
  const LongMin: int := -0x8000_0000_0000_0000
  const LongMax: int := 0x7fff_ffff_ffff_ffff

  predicate InLong(i: int)
  {
    LongMin <= i <= LongMax
  }

  /** A value of PHP's `int` type. */
  type Long = i: int | InLong(i)

  /** A string PHP turns into an integer array key: a canonical integer string whose value is an `int`. */
  predicate IsIntKey(s: string)
  {
    IsCanonicalInt(s) && ParseInteger(s).Some? && InLong(ParseInteger(s).value)
  }

  /** An optional sign followed by at least one digit (leading zeros allowed), with its value. */
  function ParseInteger(s: string): (r: Option<int>)
  {
    if |s| > 0 && AllDigits(s) then Some(DigitsValue(s))
    else if |s| > 1 && (s[0] == '-' || s[0] == '+') && AllDigits(s[1..]) then
      var v: int := DigitsValue(s[1..]);
      Some(if s[0] == '-' then -v else v)
    else None
  }

  lemma {:induction false} NatTextFacts(n: nat)
    ensures |NatText(n)| >= 1 && AllDigits(NatText(n))
    ensures DigitsValue(NatText(n)) == n
    ensures n == 0 ==> NatText(n) == "0"
    ensures n > 0 ==> NatText(n)[0] != '0'
    decreases n
  {
    if n >= 10 {
      NatTextFacts(n / 10);
      var t := NatText(n / 10) + [Digit(n % 10)];
      assert t[..|t| - 1] == NatText(n / 10);
    }
  }

  lemma {:induction false} DigitsValuePositive(s: string)
    requires |s| > 0 && AllDigits(s) && s[0] != '0'
    ensures DigitsValue(s) > 0
    decreases |s|
  {
    if |s| > 1 {
      DigitsValuePositive(s[..|s| - 1]);
    }
  }

  /** Digits without a leading zero are the text of their own value. */
  lemma {:induction false} DigitsText(s: string)
    requires |s| > 0 && AllDigits(s) && (s == "0" || s[0] != '0')
    ensures NatText(DigitsValue(s)) == s
    decreases |s|
  {
    if |s| > 1 {
      var init := s[..|s| - 1];
      DigitsText(init);
      DigitsValuePositive(init);
      var v := DigitsValue(init);
      var d := DigitValue(s[|s| - 1]);
      assert (v * 10 + d) / 10 == v && (v * 10 + d) % 10 == d;
      assert s == init + [s[|s| - 1]];
    }
  }

  /** Rendering an integer and reading it back gives the integer, and the text is canonical. */
  lemma IntTextRoundTrip(i: int)
    ensures ParseInteger(IntText(i)) == Some(i)
    ensures IsCanonicalInt(IntText(i))
  {
    if i < 0 {
      NatTextFacts(-i);
      assert IntText(i)[1..] == NatText(-i);
    } else {
      NatTextFacts(i);
    }
  }

  /** Every canonical integer string is the text of the integer it denotes. */
  lemma CanonicalIntText(s: string)
    requires IsCanonicalInt(s)
    ensures ParseInteger(s).Some? && IntText(ParseInteger(s).value) == s
  {
    if s == "0" || (|s| > 0 && s[0] != '0' && AllDigits(s)) {
      DigitsText(s);
    } else {
      DigitsText(s[1..]);
      DigitsValuePositive(s[1..]);
      assert s == "-" + s[1..];
    }
  }

  /** Integer text is made of digits and at most a leading minus sign. */
  lemma IntTextChars(i: int)
    ensures |IntText(i)| >= 1
    ensures forall j | 0 <= j < |IntText(i)| :: IsDigit(IntText(i)[j]) || (j == 0 && IntText(i)[j] == '-')
  {
    if i < 0 { NatTextFacts(-i); } else { NatTextFacts(i); }
  }
}
