/**
  Decimal text of integers: the `toString` of a non-negative number, the
  `${num}` interpolation of a signed one, and the parsing of a query value in
  the clean "optional minus sign, then one or more digits" domain.
 */
module Decimal {
  import opened Wrappers
  import opened Divisibility

  predicate IsDigit(c: char) {
    '0' <= c <= '9'
  }

  predicate AllDigits(s: string) {
    forall i :: 0 <= i < |s| ==> IsDigit(s[i])
  }

  /** Canonical decimal text: digits only, no leading zero except "0" itself. */
  predicate Canonical(s: string) {
    |s| >= 1 && AllDigits(s) && (|s| > 1 ==> s[0] != '0')
  }

  function DigitChar(d: nat): (c: char)
    requires d < 10
    ensures IsDigit(c)
  {
    (48 + d) as char
  }

  /** parseInt(c, 10) of a single decimal digit character. */
  function DigitValue(c: char): (d: nat)
    requires IsDigit(c)
    ensures d < 10
  {
    (c as int) - 48
  }

  /** The decimal text of a non-negative number (Number.prototype.toString). */
  function NatToString(m: nat): (s: string)
    ensures Canonical(s)
    ensures m < 10 <==> |s| == 1
  {
    if m < 10 then [DigitChar(m)] else NatToString(m / 10) + [DigitChar(m % 10)]
  }

  /** The decimal text of a signed number, with a leading '-' for negatives. */
  function IntToString(n: int): (s: string)
    ensures |s| >= 1
    ensures n < 0 <==> s[0] == '-'
    ensures n >= 0 ==> Canonical(s)
    ensures n < 0 ==> Canonical(s[1..])
  {
    if n < 0 then "-" + NatToString(-n) else NatToString(n)
  }

  /** The value of a string of decimal digits, read from the left. */
  function ParseNat(s: string): nat
    requires AllDigits(s)
  {
    if s == [] then 0 else ParseNat(s[..|s| - 1]) * 10 + DigitValue(s[|s| - 1])
  }

  /** Parsing of a query value: Some(value) exactly on strings matching -?[0-9]+. */
  function ParseInt(s: string): (r: Option<int>)
    ensures r.Some? <==> (|s| >= 1 && AllDigits(s)) || (|s| >= 2 && s[0] == '-' && AllDigits(s[1..]))
  {
    if |s| >= 2 && s[0] == '-' && AllDigits(s[1..]) then Some(0 - ParseNat(s[1..]))
    else if |s| >= 1 && AllDigits(s) then Some(ParseNat(s))
    else None
  }

  lemma {:induction false} ParseNatToString(m: nat)
    ensures ParseNat(NatToString(m)) == m
  {
    var s := NatToString(m);
    if m >= 10 {
      ParseNatToString(m / 10);
      assert s[..|s| - 1] == NatToString(m / 10);
    }
  }

  lemma {:induction false} ParseNatPositive(s: string)
    requires AllDigits(s) && |s| >= 1 && s[0] != '0'
    ensures ParseNat(s) >= 1
  {
    if |s| > 1 {
      ParseNatPositive(s[..|s| - 1]);
    }
  }

  /** Printing is the inverse of parsing on canonical digit strings. */
  lemma {:induction false} NatToStringParse(s: string)
    requires Canonical(s)
    ensures NatToString(ParseNat(s)) == s
  {
    var t := s[..|s| - 1];
    var c := s[|s| - 1];
    if |t| >= 1 {
      assert Canonical(t);
      ParseNatPositive(t);
      NatToStringParse(t);
      var m := ParseNat(s);
      assert m == ParseNat(t) * 10 + DigitValue(c);
      assert m / 10 == ParseNat(t) && m % 10 == DigitValue(c);
      assert DigitChar(DigitValue(c)) == c;
      assert s == t + [c];
    } else {
      assert DigitChar(DigitValue(c)) == c;
    }
  }

  /** The decimal text of an integer parses back to that integer. */
  lemma IntToStringRoundTrip(n: int)
    ensures ParseInt(IntToString(n)) == Some(n)
  {
    var s := IntToString(n);
    if n < 0 {
      assert s[1..] == NatToString(-n);
      ParseNatToString(-n);
    } else {
      ParseNatToString(n);
    }
  }

  /** The remainder of JavaScript's `%` for a positive divisor: it truncates toward zero. */
  function JsRem(a: int, b: int): (r: int)
    requires b > 0
    ensures a >= 0 ==> 0 <= r < b
    ensures a < 0 ==> -b < r <= 0
    ensures (a - r) % b == 0
  {
    if a >= 0 then
      ModUniqueZero(a - a % b, b, a / b);
      a % b
    else
      ModUniqueZero(a + (-a) % b, b, -((-a) / b));
      -((-a) % b)
  }

  /** A zero test of `a % b` gives the same answer under both conventions. */
  lemma JsRemZero(a: int, b: int)
    requires b > 0
    ensures JsRem(a, b) == 0 <==> a % b == 0
  {
    if a < 0 {
      if (-a) % b == 0 {
        ModUnique(a, b, -((-a) / b), 0);
      }
      if a % b == 0 {
        ModUnique(-a, b, -(a / b), 0);
      }
    }
  }
}
