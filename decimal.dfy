/** Python's `str()` on an `int`: optional minus sign, then decimal digits
    without leading zeros. Used by `Version.__str__` for its three fields.
    `ParseIntText` is the inverse of `IntText`: it accepts exactly the strings
    that `str()` produces for some integer. The model prints every integer;
    CPython's cap on the digits `str()` converts (`sys.int_max_str_digits`) is
    not modelled. */
module Decimal {
  import opened Wrappers

  predicate IsDigit(c: char) {
    '0' <= c <= '9'
  }

  predicate AllDigits(s: string) {
    forall i :: 0 <= i < |s| ==> IsDigit(s[i])
  }

  /** The form Python prints a non-negative int in: at least one digit, and no
      leading zero unless the number is zero itself. */
  predicate Canonical(s: string) {
    |s| > 0 && AllDigits(s) && (s[0] == '0' ==> |s| == 1)
  }

  function DigitValue(c: char): (d: nat)
    requires IsDigit(c)
    ensures d < 10
  {
    c as int - '0' as int
  }

  function DigitChar(d: nat): (c: char)
    requires d < 10
    ensures IsDigit(c) && DigitValue(c) == d
  {
    ('0' as int + d) as char
  }

  /** The number a string of digits denotes, most significant digit first. */
  function DigitsValue(s: string): (n: nat)
    requires AllDigits(s)
    decreases |s|
  {
    if s == [] then 0
    else 10 * DigitsValue(s[..|s| - 1]) + DigitValue(s[|s| - 1])
  }

  /** `str(n)` for a non-negative int: the canonical digit string whose value is `n`. */
  function NatText(n: nat): (s: string)
    ensures Canonical(s)
    ensures DigitsValue(s) == n
    decreases n
  {
    if n < 10 then [DigitChar(n)]
    else
      var init := NatText(n / 10);
      var s := init + [DigitChar(n % 10)];
      assert s[..|s| - 1] == init;
      s
  }

  /** `str(n)` for any int: a minus sign before the digits of a negative number. */
  function IntText(n: int): (s: string)
    ensures |s| > 0
    ensures forall i :: 0 <= i < |s| ==> IsDigit(s[i]) || (i == 0 && s[i] == '-')
    ensures ParseIntText(s) == Some(n)
  {
    if n < 0 then
      var digits := NatText(-n);
      assert ("-" + digits)[1..] == digits;
      "-" + digits
    else NatText(n)
  }

  /** The inverse of `IntText`: the integer a string denotes when the string is
      exactly what `str()` prints for it, and `None` otherwise ("-0", "007",
      "", "+1" and anything with other characters are refused). */
  function ParseIntText(s: string): (r: Option<int>)
    ensures r.Some? ==> |s| > 0 && (r.value < 0 <==> s[0] == '-')
  {
    if |s| > 1 && s[0] == '-' && Canonical(s[1..]) && s[1..] != "0" then
      LeadingDigitBound(s[1..]);
      Some(-(DigitsValue(s[1..]) as int))
    else if Canonical(s) then Some(DigitsValue(s))
    else None
  }

  /** Every canonical digit string is what `str()` prints for its value: with
      `NatText`'s own contract, `NatText` is a bijection between the naturals
      and the canonical digit strings. */
  lemma {:induction false} CanonicalIsNatText(s: string)
    requires Canonical(s)
    ensures NatText(DigitsValue(s)) == s
    decreases |s|
  {
    if |s| > 1 {
      var init := s[..|s| - 1];
      assert Canonical(init);
      CanonicalIsNatText(init);
      LeadingDigitBound(init);
      var n := DigitsValue(s);
      assert n / 10 == DigitsValue(init) && n % 10 == DigitValue(s[|s| - 1]);
      assert NatText(n) == NatText(n / 10) + [DigitChar(n % 10)];
      assert DigitChar(DigitValue(s[|s| - 1])) == s[|s| - 1];
    } else {
      assert DigitChar(DigitValue(s[0])) == s[0];
    }
  }

  /** A canonical digit string with a non-zero leading digit denotes a positive number. */
  lemma {:induction false} LeadingDigitBound(s: string)
    requires Canonical(s) && s[0] != '0'
    ensures DigitsValue(s) > 0
    decreases |s|
  {
    if |s| > 1 {
      assert Canonical(s[..|s| - 1]);
      LeadingDigitBound(s[..|s| - 1]);
    }
  }

  /** Every string `ParseIntText` accepts is the text `str()` prints for the
      value it returns: the round trip in the other direction. */
  lemma IntTextOfParsed(s: string, n: int)
    requires ParseIntText(s) == Some(n)
    ensures IntText(n) == s
  {
    if |s| > 1 && s[0] == '-' && Canonical(s[1..]) && s[1..] != "0" {
      CanonicalIsNatText(s[1..]);
      LeadingDigitBound(s[1..]);
      assert "-" + s[1..] == s;
    } else {
      CanonicalIsNatText(s);
    }
  }

  /** `str()` on ints is injective. */
  lemma IntTextInjective(m: int, n: int)
    ensures IntText(m) == IntText(n) <==> m == n
  {
  }
}
