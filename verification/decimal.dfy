/**
 * Decimal rendering of integers: `Long.toString` / `%d` (plain digits) and the
 * locale `NumberFormat` that `MessageFormat` applies to a number argument
 * (digits grouped by threes with a locale-chosen separator), with a parser
 * that inverts the plain form.
 */
module Decimal {
  import opened Wrappers

  predicate IsDigit(c: char)
  {
    '0' <= c <= '9'
  }

  function DigitChar(d: int): (c: char)
    requires 0 <= d < 10
    ensures IsDigit(c)
  {
    ('0' as int + d) as char
  }

  function DigitValue(c: char): int
    requires IsDigit(c)
  {
    c as int - '0' as int
  }

  /** The decimal digits of `n`, most significant first, without leading zeros. */
  function Digits(n: nat): (s: string)
    ensures |s| >= 1
    ensures forall i :: 0 <= i < |s| ==> IsDigit(s[i])
    ensures s[0] == '0' ==> s == "0"
    ensures n == 0 <==> s == "0"
    decreases n
  {
    if n < 10 then [DigitChar(n)] else Digits(n / 10) + [DigitChar(n % 10)]
  }

  /** A run of decimal digits in canonical form: non-empty, and no leading zero unless it is `0` itself. */
  predicate CanonicalDigits(s: string)
  {
    && |s| >= 1
    && (forall i :: 0 <= i < |s| ==> IsDigit(s[i]))
    && (s[0] == '0' ==> |s| == 1)
  }

  /**
   * `Long.toString(n)`, which is also what `String.format("%d", n)` prints
   * when the locale's zero digit is `0`.
   */
  function DecimalString(n: int): (s: string)
    ensures |s| >= 1
    ensures forall i :: 0 <= i < |s| ==> IsDigit(s[i]) || (i == 0 && s[i] == '-')
    ensures s[0] == '-' <==> n < 0
    ensures n < 0 ==> CanonicalDigits(s[1..])
    ensures n >= 0 ==> CanonicalDigits(s)
  {
    if n < 0 then "-" + Digits(-n) else Digits(n)
  }

  /** Reads a non-empty run of decimal digits; `None` for anything else. */
  function ParseDigits(s: string): Option<nat>
    decreases |s|
  {
    if s == [] || !IsDigit(s[|s| - 1]) then None
    else if |s| == 1 then Some(DigitValue(s[0]))
    else
      match ParseDigits(s[..|s| - 1])
      case None => None
      case Some(p) => Some(10 * p + DigitValue(s[|s| - 1]))
  }

  /** Reads an optionally negative decimal integer; `None` for anything else. */
  function ParseDecimal(s: string): Option<int>
  {
    if |s| >= 1 && s[0] == '-' then
      match ParseDigits(s[1..])
      case None => None
      case Some(n) => Some(-(n as int))
    else
      match ParseDigits(s)
      case None => None
      case Some(n) => Some(n as int)
  }

  lemma {:induction false} ParseDigitsOfDigits(n: nat)
    ensures ParseDigits(Digits(n)) == Some(n)
    decreases n
  {
    if n >= 10 {
      var s := Digits(n);
      assert s[..|s| - 1] == Digits(n / 10);
      ParseDigitsOfDigits(n / 10);
    }
  }

  /** `ParseDecimal` inverts `DecimalString` on every integer. */
  lemma DecimalRoundTrip(n: int)
    ensures ParseDecimal(DecimalString(n)) == Some(n)
  {
    var s := DecimalString(n);
    if n < 0 {
      assert s[1..] == Digits(-n);
      ParseDigitsOfDigits(-n);
    } else {
      ParseDigitsOfDigits(n);
    }
  }

  /** Every canonical run of digits is what `Digits` prints for the number it reads as. */
  lemma {:induction false} DigitsOfParse(s: string)
    requires CanonicalDigits(s)
    ensures ParseDigits(s).Some? && Digits(ParseDigits(s).value) == s
    decreases |s|
  {
    var c := s[|s| - 1];
    var d := DigitValue(c);
    assert DigitChar(d) == c;
    if |s| > 1 {
      var p := s[..|s| - 1];
      assert p[0] == s[0];
      DigitsOfParse(p);
      var v := ParseDigits(p).value;
      assert v != 0;
      assert ParseDigits(s) == Some(10 * v + d);
      assert (10 * v + d) / 10 == v && (10 * v + d) % 10 == d;
      assert s == p + [c];
    }
  }

  /** The printed form is the only canonical text that reads as the number: `%d` prints the canonical form. */
  lemma DecimalStringIsCanonical(n: int, t: string)
    requires (|t| >= 1 && t[0] == '-' && CanonicalDigits(t[1..]) && t != "-0") || CanonicalDigits(t)
    ensures ParseDecimal(t) == Some(n) <==> t == DecimalString(n)
  {
    DecimalRoundTrip(n);
    if ParseDecimal(t) == Some(n) {
      if t[0] == '-' {
        DigitsOfParse(t[1..]);
        assert t == "-" + t[1..];
        assert ParseDigits(t[1..]) == Some(-n);
        assert Digits(-n) == t[1..];
      } else {
        DigitsOfParse(t);
      }
    }
  }

  /** Different integers print differently. */
  lemma DecimalStringInjective(a: int, b: int)
    requires DecimalString(a) == DecimalString(b)
    ensures a == b
  {
    DecimalRoundTrip(a);
    DecimalRoundTrip(b);
  }

  /** Three digits with leading zeros, as printed inside a digit group. */
  function Pad3(n: nat): (s: string)
    requires n < 1000
  {
    [DigitChar(n / 100), DigitChar(n / 10 % 10), DigitChar(n % 10)]
  }

  /** `n` with a separator between each group of three digits, counted from the right. */
  function GroupedDigits(n: nat, separator: char): string
    decreases n
  {
    if n < 1000 then Digits(n)
    else GroupedDigits(n / 1000, separator) + [separator] + Pad3(n % 1000)
  }

  /**
   * What `MessageFormat` prints for a `Long` argument: the default locale's
   * `NumberFormat`, which groups digits by threes with `separator`.
   */
  function GroupedDecimal(n: int, separator: char): string
  {
    if n < 0 then "-" + GroupedDigits(-n, separator) else GroupedDigits(n, separator)
  }

  /** The characters of `s` other than `c`, in order. */
  function Without(s: string, c: char): (r: string)
    ensures |r| <= |s|
  {
    if s == [] then []
    else if s[0] == c then Without(s[1..], c)
    else [s[0]] + Without(s[1..], c)
  }

  lemma {:induction false} WithoutConcat(a: string, b: string, c: char)
    ensures Without(a + b, c) == Without(a, c) + Without(b, c)
    decreases |a|
  {
    if a != [] {
      assert (a + b)[1..] == a[1..] + b;
      WithoutConcat(a[1..], b, c);
    } else {
      assert a + b == b;
    }
  }

  lemma {:induction false} WithoutDigits(s: string, c: char)
    requires !IsDigit(c)
    requires forall i :: 0 <= i < |s| ==> IsDigit(s[i])
    ensures Without(s, c) == s
    decreases |s|
  {
    if s != [] {
      WithoutDigits(s[1..], c);
    }
  }

  /** Appending three digits to the digits of a positive number. */
  lemma DigitsAppendGroup(a: nat, b: nat)
    requires a >= 1 && b < 1000
    ensures Digits(a * 1000 + b) == Digits(a) + Pad3(b)
  {
    var n := a * 1000 + b;
    assert n / 10 == a * 100 + b / 10 && n % 10 == b % 10;
    var n1 := a * 100 + b / 10;
    assert n1 / 10 == a * 10 + b / 100 && n1 % 10 == b / 10 % 10;
    var n2 := a * 10 + b / 100;
    assert n2 / 10 == a && n2 % 10 == b / 100;
    assert Digits(n2) == Digits(a) + [DigitChar(b / 100)];
    assert Digits(n1) == Digits(n2) + [DigitChar(b / 10 % 10)];
    assert Digits(n) == Digits(n1) + [DigitChar(b % 10)];
  }

  /** Deleting the group separators from the grouped form gives the plain digits back. */
  lemma {:induction false} UngroupedIsDigits(n: nat, separator: char)
    requires !IsDigit(separator)
    ensures Without(GroupedDigits(n, separator), separator) == Digits(n)
    decreases n
  {
    if n < 1000 {
      WithoutDigits(Digits(n), separator);
    } else {
      var head := GroupedDigits(n / 1000, separator);
      UngroupedIsDigits(n / 1000, separator);
      WithoutConcat(head + [separator], Pad3(n % 1000), separator);
      WithoutConcat(head, [separator], separator);
      WithoutDigits(Pad3(n % 1000), separator);
      DigitsAppendGroup(n / 1000, n % 1000);
    }
  }

  /** For any integer, deleting the separators from `MessageFormat`'s rendering gives `Long.toString`'s. */
  lemma UngroupedIsDecimal(n: int, separator: char)
    requires !IsDigit(separator) && separator != '-'
    ensures Without(GroupedDecimal(n, separator), separator) == DecimalString(n)
  {
    if n < 0 {
      UngroupedIsDigits(-n, separator);
      WithoutConcat("-", GroupedDigits(-n, separator), separator);
    } else {
      UngroupedIsDigits(n, separator);
    }
  }

  /** Below one thousand in magnitude no separator appears, so both renderings agree. */
  lemma GroupedSmallIsDecimal(n: int, separator: char)
    requires -1000 < n < 1000
    ensures GroupedDecimal(n, separator) == DecimalString(n)
  {
  }
}
