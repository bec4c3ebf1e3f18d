/** Decimal rendering and reading of natural numbers, as `format!("{}")` and `str::parse` do it. */
module Decimal {
  import opened Results

  const U64_MAX: nat := 0xFFFF_FFFF_FFFF_FFFF

  type U64 = n: nat | n <= U64_MAX

  predicate IsAsciiDigit(c: char) {
    '0' <= c <= '9'
  }

  function DigitOf(d: nat): (c: char)
    requires d < 10
    ensures IsAsciiDigit(c) && ValueOf(c) == d
  {
    ('0' as int + d) as char
  }

  function ValueOf(c: char): (d: nat)
    requires IsAsciiDigit(c)
    ensures d < 10
  {
    c as int - '0' as int
  }

  ghost predicate AllDigits(s: string) {
    forall i :: 0 <= i < |s| ==> IsAsciiDigit(s[i])
  }

  function ToDecimal(n: nat): (s: string)
    ensures s != [] && AllDigits(s)
  {
    if n < 10 then [DigitOf(n)] else ToDecimal(n / 10) + [DigitOf(n % 10)]
  }

  function Value(s: string): nat
    requires AllDigits(s)
  {
    if s == [] then 0 else 10 * Value(s[..|s| - 1]) + ValueOf(s[|s| - 1])
  }

  /** Rendering a number and reading it back gives the number. */
  lemma {:induction false} DecimalRoundTrip(n: nat)
    ensures Value(ToDecimal(n)) == n
  {
    if n >= 10 {
      DecimalRoundTrip(n / 10);
      var s := ToDecimal(n);
      assert s[..|s| - 1] == ToDecimal(n / 10);
    } else {
      assert [DigitOf(n)][..0] == [];
    }
  }

  lemma DecimalIsInjective(m: nat, n: nat)
    requires ToDecimal(m) == ToDecimal(n)
    ensures m == n
  {
    DecimalRoundTrip(m);
    DecimalRoundTrip(n);
  }

  predicate Readable(s: string) {
    forall c :: c in s ==> IsAsciiDigit(c)
  }

  /** `s.parse::<u64>()`: ASCII digits only, at least one, and within range. */
  function ParseU64(s: string): Option<U64> {
    if s != [] && Readable(s) && Value(s) <= U64_MAX then Some(Value(s)) else None
  }
}
