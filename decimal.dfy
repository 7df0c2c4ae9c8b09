/** Decimal rendering of naturals, as printf's %zu writes sizes and indices into the
    generated names, and the reading back that shows the rendering loses nothing. */
module Decimal {

  predicate IsDigit(c: char)
  {
    '0' <= c <= '9'
  }

  predicate AllDigits(s: string)
  {
    forall i :: 0 <= i < |s| ==> IsDigit(s[i])
  }

  function DigitChar(d: nat): (c: char)
    requires d < 10
    ensures IsDigit(c)
  {
    (48 + d) as char
  }

  function DigitValue(c: char): nat
    requires IsDigit(c)
  {
    c as int - 48
  }

  /** %zu: the shortest decimal numeral of n, most significant digit first. */
  function NatToString(n: nat): (s: string)
    ensures |s| >= 1 && AllDigits(s)
    decreases n
  {
    if n < 10 then [DigitChar(n)] else NatToString(n / 10) + [DigitChar(n % 10)]
  }

  /** The value of a numeral. */
  function ParseDecimal(s: string): nat
    requires AllDigits(s)
    decreases |s|
  {
    if s == [] then 0 else ParseDecimal(s[..|s| - 1]) * 10 + DigitValue(s[|s| - 1])
  }

  /** Reading a rendered numeral gives back the number. */
  lemma {:induction false} ParseNatToString(n: nat)
    ensures ParseDecimal(NatToString(n)) == n
    decreases n
  {
    var s := NatToString(n);
    if n < 10 {
      assert s[..0] == [];
    } else {
      ParseNatToString(n / 10);
      assert s[..|s| - 1] == NatToString(n / 10);
    }
  }

  /** Position of the first '_' in s, or |s| when there is none. */
  function FirstUnderscore(s: string): (i: nat)
    ensures i <= |s|
  {
    if s == [] || s[0] == '_' then 0 else 1 + FirstUnderscore(s[1..])
  }

  /** A numeral followed by '_' is delimited by that '_'. */
  lemma {:induction false} FirstUnderscoreAfterDigits(x: string, y: string)
    requires AllDigits(x)
    ensures FirstUnderscore(x + "_" + y) == |x|
  {
    if x != [] {
      assert (x + "_" + y)[1..] == x[1..] + "_" + y;
      FirstUnderscoreAfterDigits(x[1..], y);
    }
  }
}
