/** The `std::setprecision(2) << std::fixed` rendering of analysis results.
    A result is modelled as an integer number of hundredths, the value the
    stream prints once it has been rounded to two decimals. */
module FixedPoint {
  import opened Wrappers
  import opened Text

  /** Fixed-point text of a non-negative number of hundredths. */
  function Unsigned(c: nat): string
  {
    NatToString(c / 10 / 10) + "." + [DigitChar(c / 10 % 10), DigitChar(c % 10)]
  }

  /** Fixed-point text of a number of hundredths. */
  function Fmt(v: int): string
  {
    if v < 0 then "-" + Unsigned(-v) else Unsigned(v)
  }

  /** The text has exactly two digits after the point, and a leading minus
      sign exactly for negative values. */
  lemma FmtShape(v: int)
    ensures var s := Fmt(v);
            |s| >= 4 && s[|s| - 3] == '.' && IsDigit(s[|s| - 2]) && IsDigit(s[|s| - 1])
    ensures (Fmt(v)[0] == '-') <==> v < 0
    ensures v >= 0 ==> AllDigits(Fmt(v)[..|Fmt(v)| - 3])
    ensures v < 0 ==> AllDigits(Fmt(v)[1..|Fmt(v)| - 3])
  {
    if v < 0 {
      UnsignedShape(-v);
      SignedParts(Unsigned(-v));
    } else {
      UnsignedShape(v);
    }
  }

  /** A minus sign in front shifts every position by one. */
  lemma SignedParts(u: string)
    requires |u| >= 3
    ensures var s := "-" + u;
            |s| == |u| + 1 && s[0] == '-' && s[1..] == u && s[1..|s| - 3] == u[..|u| - 3]
            && s[|s| - 3..] == u[|u| - 3..]
  {
  }

  lemma UnsignedShape(c: nat)
    ensures var u := Unsigned(c);
            |u| >= 4 && u[|u| - 3] == '.' && IsDigit(u[|u| - 2]) && IsDigit(u[|u| - 1])
            && IsDigit(u[0]) && AllDigits(u[..|u| - 3])
  {
    NatToStringDigits(c / 10 / 10);
    TextParts(NatToString(c / 10 / 10), DigitChar(c / 10 % 10), DigitChar(c % 10));
  }

  /** Reads an unsigned fixed-point number with two decimals. */
  function ParseUnsigned(t: string): Option<nat>
  {
    if |t| >= 4 && t[|t| - 3] == '.' && AllDigits(t[..|t| - 3])
       && IsDigit(t[|t| - 2]) && IsDigit(t[|t| - 1])
    then Some(DigitsValue(t[..|t| - 3]) * 100 + DigitValue(t[|t| - 2]) * 10 + DigitValue(t[|t| - 1]))
    else None
  }

  /** Reads a fixed-point number with two decimals, optionally negative. */
  function ParseFixed(s: string): Option<int>
  {
    if |s| > 0 && s[0] == '-' then
      match ParseUnsigned(s[1..])
      case Some(c) => Some(0 - c as int)
      case None => None
    else
      match ParseUnsigned(s)
      case Some(c) => Some(c)
      case None => None
  }

  /** Parsing a digit run, a point and two digits reads their values. */
  lemma ParseUnsignedParts(whole: string, d1: char, d2: char)
    requires |whole| > 0 && AllDigits(whole) && IsDigit(d1) && IsDigit(d2)
    ensures ParseUnsigned(whole + "." + [d1, d2]) ==
              Some(DigitsValue(whole) * 100 + DigitValue(d1) * 10 + DigitValue(d2))
  {
    TextParts(whole, d1, d2);
  }

  /** Where the integer part, the point and the two decimals sit. */
  lemma TextParts(whole: string, d1: char, d2: char)
    ensures var t := whole + "." + [d1, d2];
            |t| == |whole| + 3 && t[..|whole|] == whole
            && t[|whole|] == '.' && t[|whole| + 1] == d1 && t[|whole| + 2] == d2
  {
  }

  lemma DecimalSplit(c: nat)
    ensures c / 10 / 10 * 100 + c / 10 % 10 * 10 + c % 10 == c
  {
    var tenths := c / 10;
    assert c == tenths * 10 + c % 10;
    assert tenths == tenths / 10 * 10 + tenths % 10;
  }

  lemma UnsignedRoundTrip(c: nat)
    ensures ParseUnsigned(Unsigned(c)) == Some(c)
  {
    NatToStringDigits(c / 10 / 10);
    NatToStringRoundTrip(c / 10 / 10);
    DigitRoundTrip(c / 10 % 10);
    DigitRoundTrip(c % 10);
    ParseUnsignedParts(NatToString(c / 10 / 10), DigitChar(c / 10 % 10), DigitChar(c % 10));
    DecimalSplit(c);
  }

  /** Every formatted result reads back as the value it was written from, so
      the two-decimal text loses nothing of a value in hundredths. */
  lemma FmtRoundTrip(v: int)
    ensures ParseFixed(Fmt(v)) == Some(v)
  {
    if v < 0 {
      UnsignedRoundTrip(-v);
      ParseNegated(Unsigned(-v), -v);
    } else {
      UnsignedShape(v);
      UnsignedRoundTrip(v);
    }
  }

  /** A minus sign in front of an unsigned text negates the value read. */
  lemma ParseNegated(u: string, c: nat)
    requires ParseUnsigned(u) == Some(c)
    ensures ParseFixed("-" + u) == Some(0 - c as int)
  {
    assert ("-" + u)[1..] == u;
  }
}
