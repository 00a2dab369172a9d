// Student identifiers: insertUser renders the counter value with
// fmt.Sprintf("R%010d", n), and EditStudent accepts a path parameter as an
// identifier when it is 11 long and starts with 'R'.
//
// A Go string is a sequence of bytes; here each char stands for one byte, so
// `|s|` is Go's `len(s)`. Because 'R' is ASCII and UTF-8 never uses an ASCII
// byte inside a multi-byte sequence, the first rune of s is 'R' exactly when
// its first byte is.

module StudentId {
  import opened Decimal

  datatype Option<T> = None | Some(value: T)

  const IdWidth: nat := 10

  /** Go's fmt.Sprintf("%010d", n): the sign, when there is one, takes one
      place of the width and the zeros go between it and the digits. */
  function ZeroPadded(n: int, width: nat): (s: string)
    requires width >= 1
  {
    if n >= 0 then PadLeft(Digits(n), width) else "-" + PadLeft(Digits(-n), width - 1)
  }

  /** The identifier insertUser gives the student whose counter value is n. */
  function FormatId(n: int): (id: string) {
    "R" + ZeroPadded(n, IdWidth)
  }

  /** EditStudent's format check on the student_id path parameter. */
  predicate IsWellFormed(s: string) {
    |s| == 11 && s[0] == 'R'
  }

  /** Reads an identifier back into its counter value: 'R', an optional
      minus sign, then digits. It gives back n for FormatId(n), and it also
      reads strings FormatId never produces, such as the unpadded "R5";
      None when s is not of that form. */
  function ParseId(s: string): (r: Option<int>)
    ensures r.Some? ==> |s| >= 2 && s[0] == 'R'
  {
    if |s| < 2 || s[0] != 'R' then None
    else if s[1] == '-' && |s| >= 3 && AllDigits(s[2..]) then Some(-(Value(s[2..]) as int))
    else if AllDigits(s[1..]) then Some(Value(s[1..]))
    else None
  }

  /** Reading a formatted identifier gives back the counter value, for every
      counter value, negative ones and ones of more than ten digits included. */
  lemma RoundTrip(n: int)
    ensures ParseId(FormatId(n)) == Some(n)
  {
    if n >= 0 {
      RoundTripNonNegative(n);
    } else {
      RoundTripNegative(n);
    }
  }

  lemma RoundTripNonNegative(n: nat)
    ensures ParseId(FormatId(n)) == Some(n)
  {
    var body := PadLeft(Digits(n), IdWidth);
    PaddedValue(n, IdWidth);
    var s := FormatId(n);
    assert s == "R" + body;
    assert s[1..] == body;
    assert IsDigit(body[0]);
  }

  lemma RoundTripNegative(n: int)
    requires n < 0
    ensures ParseId(FormatId(n)) == Some(n)
  {
    var m: nat := -n;
    var body := PadLeft(Digits(m), IdWidth - 1);
    PaddedValue(m, IdWidth - 1);
    var s := FormatId(n);
    assert s == "R-" + body;
    assert s[2..] == body;
    assert ParseId(s) == Some(-(Value(body) as int));
  }

  /** Distinct counter values never share an identifier. */
  lemma FormatInjective(a: int, b: int)
    requires FormatId(a) == FormatId(b)
    ensures a == b
  {
    RoundTrip(a);
    RoundTrip(b);
  }

  /** For a counter value in [0, 10^10) the identifier is 'R' and exactly ten
      decimal digits, zero padded. */
  lemma FormatShape(n: int)
    requires 0 <= n < Pow10(IdWidth)
    ensures |FormatId(n)| == 11 && FormatId(n)[0] == 'R'
    ensures AllDigits(FormatId(n)[1..])
    ensures Value(FormatId(n)[1..]) == n
  {
    DigitsFit(n, IdWidth);
    PaddedValue(n, IdWidth);
    assert FormatId(n)[1..] == PadLeft(Digits(n), IdWidth);
  }

  /** The identifiers EditStudent's check accepts among those insertUser can
      produce: exactly those of counter values in (-10^9, 10^10). A counter
      of 10^10 or more gives an identifier of 12 or more characters, which
      the check rejects. */
  lemma FormattedIsWellFormed(n: int)
    ensures IsWellFormed(FormatId(n)) <==> -(Pow10(IdWidth - 1) as int) < n < Pow10(IdWidth)
  {
    if n >= 0 {
      DigitsFit(n, IdWidth);
    } else {
      DigitsFit(-n, IdWidth - 1);
    }
  }

  /** The canonical identifiers: 'R' followed by ten decimal digits. */
  predicate IsCanonical(s: string) {
    |s| == 11 && s[0] == 'R' && AllDigits(s[1..])
  }

  /** A string is canonical exactly when insertUser produces it for some
      counter value in [0, 10^10), namely the value its digits spell. */
  lemma CanonicalIffFormatted(s: string)
    ensures IsCanonical(s) ==> 0 <= Value(s[1..]) < Pow10(IdWidth) && FormatId(Value(s[1..])) == s
    ensures (exists n :: 0 <= n < Pow10(IdWidth) && FormatId(n) == s) ==> IsCanonical(s)
  {
    if IsCanonical(s) {
      var n := Value(s[1..]);
      ValueBound(s[1..]);
      FormatShape(n);
      ValueInjective(FormatId(n)[1..], s[1..]);
      assert FormatId(n) == [FormatId(n)[0]] + FormatId(n)[1..];
      assert s == [s[0]] + s[1..];
    }
    if exists n :: 0 <= n < Pow10(IdWidth) && FormatId(n) == s {
      var n :| 0 <= n < Pow10(IdWidth) && FormatId(n) == s;
      FormatShape(n);
    }
  }

  /** The check looks at the length and the first character only: it
      accepts an identifier no counter value produces. */
  lemma CheckAcceptsNonIdentifiers()
    ensures IsWellFormed("Rmath-12345") && ParseId("Rmath-12345") == None
  {
  }
}
