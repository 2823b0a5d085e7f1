/**
 * The few pieces of the Java platform's text handling that the bank's rules
 * depend on: decimal rendering and parsing of 64-bit integers (Long.toString,
 * Long.parseLong), String.trim, String.equalsIgnoreCase and the plain-notation
 * rendering of a scale-2 BigDecimal.
 */
module JavaText {
  import opened Wrappers

  const MinLong: int := -0x8000_0000_0000_0000
  const MaxLong: int := 0x7FFF_FFFF_FFFF_FFFF

  // ---------------------------------------------------------------------
  // Decimal digits
  // ---------------------------------------------------------------------

  predicate IsDigit(c: char) {
    '0' <= c <= '9'
  }

  predicate AllDigits(s: string) {
    forall i :: 0 <= i < |s| ==> IsDigit(s[i])
  }

  function DigitChar(d: nat): (c: char)
    requires d < 10
    ensures IsDigit(c) && c as int - '0' as int == d
  {
    ('0' as int + d) as char
  }

  /** The value of a string of decimal digits, most significant digit first. */
  function DigitsValue(s: string): nat
    requires AllDigits(s)
  {
    if s == [] then 0 else DigitsValue(s[..|s| - 1]) * 10 + (s[|s| - 1] as int - '0' as int)
  }

  /** The canonical decimal rendering of a non-negative number: at least one digit, no leading zero. */
  function NatToString(n: nat): (s: string)
    ensures |s| >= 1 && AllDigits(s)
    ensures |s| > 1 ==> s[0] != '0'
    ensures n < 10 <==> |s| == 1
  {
    if n < 10 then [DigitChar(n)] else NatToString(n / 10) + [DigitChar(n % 10)]
  }

  /** Long.toString (and Integer.toString, and string concatenation of a long). */
  function LongToString(n: int): string {
    if n < 0 then "-" + NatToString(-n) else NatToString(n)
  }

  lemma {:induction false} DigitsRoundTrip(n: nat)
    ensures DigitsValue(NatToString(n)) == n
  {
    if n >= 10 {
      DigitsRoundTrip(n / 10);
      var s := NatToString(n);
      assert s[..|s| - 1] == NatToString(n / 10);
    }
  }

  /** Rendering is injective: distinct numbers never share a decimal rendering. */
  lemma NatToStringInjective(m: nat, n: nat)
    requires NatToString(m) == NatToString(n)
    ensures m == n
  {
    DigitsRoundTrip(m);
    DigitsRoundTrip(n);
  }

  predicate IsSign(c: char) {
    c == '+' || c == '-'
  }

  /** The value of an optional sign followed by decimal digits. */
  function SignedValue(sign: string, digits: string): int
    requires AllDigits(digits)
  {
    if sign == "-" then 0 - DigitsValue(digits) as int else DigitsValue(digits)
  }

  /**
   * Long.parseLong with radix 10: an optional '+' or '-' followed by one or
   * more digits, whose value lies in the signed 64-bit range. Anything else
   * (the empty string, a lone sign, a space, a letter, an overflow) is a
   * NumberFormatException, here None.
   */
  function ParseLong(s: string): (r: Option<int>)
    ensures r.Some? ==> MinLong <= r.value <= MaxLong
    ensures r.Some? ==> |s| > 0 && (IsDigit(s[0]) || IsSign(s[0]))
    ensures r.Some? ==> var k := if IsSign(s[0]) then 1 else 0;
                        |s| > k && AllDigits(s[k..]) && r.value == SignedValue(s[..k], s[k..])
  {
    if |s| > 0 && (s[0] == '-' || s[0] == '+') then
      var digits := s[1..];
      if |digits| == 0 || !AllDigits(digits) then None
      else
        var v: int := if s[0] == '-' then 0 - DigitsValue(digits) as int else DigitsValue(digits);
        if MinLong <= v <= MaxLong then Some(v) else None
    else if |s| == 0 || !AllDigits(s) then None
    else if DigitsValue(s) <= MaxLong then Some(DigitsValue(s))
    else None
  }

  /**
   * Conversely, every optional sign followed by one or more digits whose
   * value is in range is accepted with that value: "+7" and "007" included.
   */
  lemma ParseLongAccepts(sign: string, digits: string)
    requires sign == "" || sign == "+" || sign == "-"
    requires |digits| >= 1 && AllDigits(digits)
    requires MinLong <= SignedValue(sign, digits) <= MaxLong
    ensures ParseLong(sign + digits) == Some(SignedValue(sign, digits))
  {
    var s := sign + digits;
    if sign == "" {
      assert s == digits && !IsSign(s[0]);
    } else {
      assert s[0] == sign[0] && s[1..] == digits;
    }
  }

  /** Every long survives a trip through its decimal rendering. */
  lemma LongRoundTrip(n: int)
    requires MinLong <= n <= MaxLong
    ensures ParseLong(LongToString(n)) == Some(n)
  {
    var s := LongToString(n);
    if n < 0 {
      DigitsRoundTrip(-n);
      assert s[0] == '-' && s[1..] == NatToString(-n);
      assert DigitsValue(s[1..]) == -n;
    } else {
      DigitsRoundTrip(n);
      assert IsDigit(s[0]) && DigitsValue(s) == n;
    }
  }

  // ---------------------------------------------------------------------
  // String.trim
  // ---------------------------------------------------------------------

  /** Removes the leading characters at or below U+0020. */
  function TrimStart(s: string): (t: string)
    ensures |t| <= |s| && t == s[|s| - |t|..]
    ensures forall i :: 0 <= i < |s| - |t| ==> s[i] <= ' '
    ensures t == [] || t[0] > ' '
  {
    if s != [] && s[0] <= ' ' then TrimStart(s[1..]) else s
  }

  /** Removes the trailing characters at or below U+0020. */
  function TrimEnd(s: string): (t: string)
    ensures |t| <= |s| && t == s[..|t|]
    ensures forall i :: |t| <= i < |s| ==> s[i] <= ' '
    ensures t == [] || t[|t| - 1] > ' '
  {
    if s != [] && s[|s| - 1] <= ' ' then TrimEnd(s[..|s| - 1]) else s
  }

  function Trim(s: string): string {
    TrimEnd(TrimStart(s))
  }

  /** `s.trim().isEmpty()` holds exactly when every character is at or below U+0020. */
  lemma TrimEmptyIffBlank(s: string)
    ensures Trim(s) == [] <==> forall i :: 0 <= i < |s| ==> s[i] <= ' '
  {
    var t := TrimStart(s);
    if t != [] {
      assert t[0] == s[|s| - |t|];
    }
  }

  /** A string Long.parseLong accepts is never blank after trimming. */
  lemma ParsableIsNotBlank(s: string)
    ensures ParseLong(s).Some? ==> Trim(s) != []
  {
    TrimEmptyIffBlank(s);
    if ParseLong(s).Some? {
      assert s[0] > ' ';
    }
  }

  // ---------------------------------------------------------------------
  // String.equalsIgnoreCase
  // ---------------------------------------------------------------------

  /**
   * Character.toUpperCase for every character whose upper case is an ASCII
   * letter (a-z, dotless i U+0131, long s U+017F); every other character is
   * left as it is.
   */
  function UpperCase(c: char): char {
    if 'a' <= c <= 'z' then (c as int - 32) as char
    else if c == '\U{131}' then 'I'
    else if c == '\U{17F}' then 'S'
    else c
  }

  /**
   * Character.toLowerCase for every character whose lower case is an ASCII
   * letter (A-Z, dotted capital I U+0130, Kelvin sign U+212A); every other
   * character is left as it is.
   */
  function LowerCase(c: char): char {
    if 'A' <= c <= 'Z' then (c as int + 32) as char
    else if c == '\U{130}' then 'i'
    else if c == '\U{212A}' then 'k'
    else c
  }

  /** The per-character test of String.regionMatches with ignoreCase. */
  predicate CharsEqualIgnoreCase(a: char, b: char) {
    a == b || UpperCase(a) == UpperCase(b) || LowerCase(UpperCase(a)) == LowerCase(UpperCase(b))
  }

  predicate EqualsIgnoreCase(a: string, b: string) {
    |a| == |b| && forall i :: 0 <= i < |a| ==> CharsEqualIgnoreCase(a[i], b[i])
  }

  /**
   * Against an upper-case ASCII letter the test accepts exactly that letter,
   * its lower-case form and the few non-ASCII characters Java folds onto it.
   */
  lemma IgnoreCaseAgainstUpperAscii(letter: char, c: char)
    requires 'A' <= letter <= 'Z'
    ensures CharsEqualIgnoreCase(letter, c) <==>
      || c == letter
      || c as int == letter as int + 32
      || (letter == 'I' && (c == '\U{131}' || c == '\U{130}'))
      || (letter == 'S' && c == '\U{17F}')
      || (letter == 'K' && c == '\U{212A}')
  {
  }

  // ---------------------------------------------------------------------
  // BigDecimal at scale 2
  // ---------------------------------------------------------------------

  /** BigDecimal.toString of an amount held as a count of cents at scale 2, e.g. 100000 as "1000.00". */
  function MoneyString(cents: int): (s: string)
    ensures |s| >= 4 && s[|s| - 3] == '.' && AllDigits(s[|s| - 2..])
  {
    var m := if cents < 0 then -cents else cents;
    (if cents < 0 then "-" else "") + NatToString(m / 100) + "." + [DigitChar(m % 100 / 10), DigitChar(m % 10)]
  }

  /**
   * The text denotes the amount: a minus sign exactly when it is negative,
   * then the whole units read back as the magnitude divided by 100, and the
   * two digits after the point read back as the magnitude's remainder.
   */
  lemma MoneyStringValue(cents: int)
    ensures var s := MoneyString(cents);
            var m := if cents < 0 then -cents else cents;
            var sign := if cents < 0 then 1 else 0;
            && (s[0] == '-' <==> cents < 0)
            && AllDigits(s[sign..|s| - 3])
            && DigitsValue(s[sign..|s| - 3]) == m / 100
            && DigitsValue(s[|s| - 2..]) == m % 100
  {
    var s := MoneyString(cents);
    var m := if cents < 0 then -cents else cents;
    var sign := if cents < 0 then 1 else 0;
    var whole := NatToString(m / 100);
    var frac := [DigitChar(m % 100 / 10), DigitChar(m % 10)];
    var prefix := if cents < 0 then "-" else "";
    assert s == prefix + whole + "." + frac;
    assert s[sign..|s| - 3] == whole;
    assert s[|s| - 2..] == frac;
    assert s[0] == if cents < 0 then '-' else whole[0];
    DigitsRoundTrip(m / 100);
    assert frac[..1] == [DigitChar(m % 100 / 10)] && [DigitChar(m % 100 / 10)][..0] == [];
    assert DigitsValue(frac[..1]) == m % 100 / 10;
    assert DigitsValue(frac) == (m % 100 / 10) * 10 + m % 10;
  }

  /** Different amounts never render alike, so the refusal message names the balance unambiguously. */
  lemma MoneyStringInjective(a: int, b: int)
    requires MoneyString(a) == MoneyString(b)
    ensures a == b
  {
    MoneyStringValue(a);
    MoneyStringValue(b);
  }
}
