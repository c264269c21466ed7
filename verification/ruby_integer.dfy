/** Ruby's `String#to_i` and `Integer#to_s` in base 10, and the round-trip
    test `v.to_i.to_s == v` the numeric filter uses to decide whether a
    string is a number. */
module RubyInteger {
  import opened Text

  predicate AllDigits(s: string) {
    forall i :: 0 <= i < |s| ==> IsDigit(s[i])
  }

  function DigitChar(d: nat): (c: char)
    requires d < 10
    ensures IsDigit(c)
  {
    ('0' as int + d) as char
  }

  function DigitValue(c: char): (d: nat)
    requires IsDigit(c)
    ensures d < 10 && DigitChar(d) == c
  {
    c as int - '0' as int
  }

  /** `Integer#to_s` of a non-negative integer: its decimal digits, most
      significant first, with no leading zero except for zero itself. */
  function NatToS(n: nat): (s: string)
    ensures |s| > 0 && AllDigits(s)
    ensures s[0] == '0' <==> n == 0
    ensures n == 0 ==> s == "0"
  {
    if n < 10 then [DigitChar(n)] else NatToS(n / 10) + [DigitChar(n % 10)]
  }

  /** `Integer#to_s`. */
  function IntToS(i: int): string {
    if i < 0 then "-" + NatToS(-i) else NatToS(i)
  }

  /** The value of a string of decimal digits; the empty string is 0. */
  function DigitsValue(s: string): nat
    requires AllDigits(s)
  {
    if |s| == 0 then 0 else DigitsValue(s[..|s| - 1]) * 10 + DigitValue(s[|s| - 1])
  }

  /** The longest prefix of `s` made of decimal digits. */
  function LeadingDigits(s: string): (d: string)
    ensures AllDigits(d) && d <= s
    ensures |d| < |s| ==> !IsDigit(s[|d|])
  {
    if |s| > 0 && IsDigit(s[0]) then [s[0]] + LeadingDigits(s[1..]) else ""
  }

  /** `s` without its leading white space. */
  function SkipSpace(s: string): (t: string)
    ensures |t| <= |s| && t == s[|s| - |t|..]
    ensures |t| > 0 ==> !IsSpace(t[0])
  {
    if |s| > 0 && IsSpace(s[0]) then SkipSpace(s[1..]) else s
  }

  /** `String#to_i`: leading white space, an optional sign and the longest
      run of digits after it; a string that does not start with a number
      is 0. */
  function ToI(s: string): int {
    var t := SkipSpace(s);
    if |t| > 0 && t[0] == '-' then -(DigitsValue(LeadingDigits(t[1..])) as int)
    else if |t| > 0 && t[0] == '+' then DigitsValue(LeadingDigits(t[1..]))
    else DigitsValue(LeadingDigits(t))
  }

  /** Digits with a non-zero first digit. */
  predicate IsPositiveNumeral(s: string) {
    |s| > 0 && AllDigits(s) && s[0] != '0'
  }

  /** The shape of every string `Integer#to_s` prints: "0", or an optional
      minus sign followed by digits that do not start with 0. */
  predicate IsCanonical(s: string) {
    s == "0" || IsPositiveNumeral(s) || (|s| > 1 && s[0] == '-' && IsPositiveNumeral(s[1..]))
  }

  lemma LeadingDigitsOfDigits(s: string)
    requires AllDigits(s)
    ensures LeadingDigits(s) == s
  {
    if |s| > 0 {
      LeadingDigitsOfDigits(s[1..]);
      assert s == [s[0]] + s[1..];
    }
  }

  /** Reading back the digits `NatToS` prints gives the number. */
  lemma {:induction false} DigitsOfNatToS(n: nat)
    ensures DigitsValue(NatToS(n)) == n
  {
    if n >= 10 {
      var a := NatToS(n / 10);
      var s := NatToS(n);
      assert s == a + [DigitChar(n % 10)];
      assert s[..|s| - 1] == a;
      DigitsOfNatToS(n / 10);
    }
  }

  /** A numeral with no leading zero has a positive value. */
  lemma {:induction false} PositiveNumeralValue(s: string)
    requires IsPositiveNumeral(s)
    ensures DigitsValue(s) >= 1
    decreases |s|
  {
    if |s| > 1 {
      PositiveNumeralValue(s[..|s| - 1]);
    }
  }

  /** Printing the value of a numeral with no leading zero gives the numeral
      back. */
  lemma {:induction false} NatToSOfDigits(s: string)
    requires IsPositiveNumeral(s) || s == "0"
    ensures NatToS(DigitsValue(s)) == s
    decreases |s|
  {
    if |s| > 1 {
      var p := s[..|s| - 1];
      assert IsPositiveNumeral(p);
      PositiveNumeralValue(p);
      NatToSOfDigits(p);
      var n := DigitsValue(s);
      assert n / 10 == DigitsValue(p) && n % 10 == DigitValue(s[|s| - 1]);
      assert s == p + [s[|s| - 1]];
    }
  }

  /** Everything `Integer#to_s` prints is canonical. */
  lemma IntToSIsCanonical(i: int)
    ensures IsCanonical(IntToS(i))
  {
    if i < 0 {
      assert IntToS(i)[1..] == NatToS(-i);
    }
  }

  /** A string that starts with a digit has no leading white space. */
  lemma SkipSpaceOfDigitStart(s: string)
    requires |s| > 0 && (IsDigit(s[0]) || s[0] == '-')
    ensures SkipSpace(s) == s
  {
  }

  /** `String#to_i` reads back the digits `Integer#to_s` prints. */
  lemma ToIOfNatToS(n: nat)
    ensures ToI(NatToS(n)) == n
  {
    var s := NatToS(n);
    SkipSpaceOfDigitStart(s);
    LeadingDigitsOfDigits(s);
    DigitsOfNatToS(n);
  }

  /** `String#to_i` reads back a minus sign followed by digits. */
  lemma ToIOfNegated(n: nat)
    ensures ToI("-" + NatToS(n)) == -(n as int)
  {
    var s := "-" + NatToS(n);
    SkipSpaceOfDigitStart(s);
    assert s[1..] == NatToS(n);
    LeadingDigitsOfDigits(NatToS(n));
    DigitsOfNatToS(n);
  }

  /** `String#to_i` reads back what `Integer#to_s` prints. */
  lemma ToIOfIntToS(i: int)
    ensures ToI(IntToS(i)) == i
  {
    if i < 0 {
      var n: nat := -i;
      ToIOfNegated(n);
      assert IntToS(i) == "-" + NatToS(n);
    } else {
      ToIOfNatToS(i);
      assert IntToS(i) == NatToS(i);
    }
  }

  /** `String#to_i` of a plain run of digits is their value. */
  lemma ToIOfDigits(d: string)
    requires |d| > 0 && AllDigits(d)
    ensures ToI(d) == DigitsValue(d)
  {
    assert IsDigit(d[0]);
    SkipSpaceOfDigitStart(d);
    assert d[0] != '-' && d[0] != '+';
    LeadingDigitsOfDigits(d);
    assert ToI(d) == DigitsValue(LeadingDigits(d)) as int;
  }

  /** `String#to_i` of a minus sign and a run of digits is their negated
      value. */
  lemma ToIOfMinusDigits(d: string)
    requires |d| > 0 && AllDigits(d)
    ensures ToI("-" + d) == -(DigitsValue(d) as int)
  {
    var s := "-" + d;
    assert s[0] == '-';
    SkipSpaceOfDigitStart(s);
    assert s[1..] == d;
    LeadingDigitsOfDigits(d);
    assert ToI(s) == -(DigitsValue(LeadingDigits(s[1..])) as int);
  }

  /** A canonical numeral with a minus sign survives `to_i` then `to_s`. */
  lemma CanonicalNegativeRoundTrips(d: string)
    requires IsPositiveNumeral(d)
    ensures IntToS(ToI("-" + d)) == "-" + d
  {
    ToIOfMinusDigits(d);
    PositiveNumeralValue(d);
    NatToSOfDigits(d);
    var n: nat := DigitsValue(d);
    assert ToI("-" + d) == -(n as int) && n > 0;
    assert IntToS(-(n as int)) == "-" + NatToS(n);
  }

  /** A canonical numeral without a sign survives `to_i` then `to_s`. */
  lemma CanonicalNonNegativeRoundTrips(d: string)
    requires IsPositiveNumeral(d) || d == "0"
    ensures IntToS(ToI(d)) == d
  {
    ToIOfDigits(d);
    NatToSOfDigits(d);
    var n: nat := DigitsValue(d);
    assert ToI(d) == n;
    assert IntToS(n) == NatToS(n);
  }

  /** A canonical numeral survives `to_i` followed by `to_s`. */
  lemma CanonicalRoundTrips(s: string)
    requires IsCanonical(s)
    ensures IntToS(ToI(s)) == s
  {
    if s != "0" && !IsPositiveNumeral(s) {
      var d := s[1..];
      assert s == "-" + d;
      CanonicalNegativeRoundTrips(d);
    } else {
      CanonicalNonNegativeRoundTrips(s);
    }
  }

  /** The integer round-trip test `v.to_i.to_s == v` accepts exactly the
      canonical decimal numerals: no sign other than a leading '-', no
      leading zeros, no "-0", no white space and nothing after the digits. */
  lemma RoundTripIffCanonical(s: string)
    ensures IntToS(ToI(s)) == s <==> IsCanonical(s)
  {
    if IntToS(ToI(s)) == s {
      IntToSIsCanonical(ToI(s));
    }
    if IsCanonical(s) {
      CanonicalRoundTrips(s);
    }
  }
}
