/** Decimal numerals as Rust reads and writes them for `u64`: `str::parse`
    (an optional leading `+`, then one or more ASCII digits, the value below
    2^64) and `Display` (no sign, no leading zeros). */
module Numerals {
  import opened Outcomes

  const U64Limit: nat := 0x1_0000_0000_0000_0000

  predicate IsDigit(c: char) { '0' <= c <= '9' }

  predicate AllDigits(s: string) { forall i :: 0 <= i < |s| ==> IsDigit(s[i]) }

  function DigitValue(c: char): nat
    requires IsDigit(c)
  {
    (c as int - '0' as int) as nat
  }

  function DigitChar(d: nat): (c: char)
    requires d < 10
    ensures IsDigit(c) && DigitValue(c) == d
  {
    ('0' as int + d) as char
  }

  /** The value of a string of digits, most significant first. */
  function DigitsValue(s: string): nat
    requires AllDigits(s)
  {
    if s == [] then 0 else DigitsValue(s[..|s| - 1]) * 10 + DigitValue(s[|s| - 1])
  }

  /** `u64::from_str`: `None` is the parse error. */
  function ParseU64(s: string): (r: Option<nat>)
    ensures r.Some? ==> r.value < U64Limit
    ensures r.Some? ==> |s| > 0 && (s[0] == '+' || IsDigit(s[0]))
    ensures r.Some? ==> exists k :: 0 <= k <= 1 && k <= |s| && AllDigits(s[k..]) && s[k..] != []
                                    && DigitsValue(s[k..]) == r.value
  {
    var k := if |s| > 0 && s[0] == '+' then 1 else 0;
    var digits := s[k..];
    if digits == [] || !AllDigits(digits) then None
    else if DigitsValue(digits) < U64Limit then Some(DigitsValue(digits))
    else None
  }

  /** `Display` for an unsigned integer. */
  function Decimal(n: nat): (s: string)
    ensures s != [] && AllDigits(s)
    ensures n == 0 ==> s == "0"
    ensures n > 0 ==> s[0] != '0'
    decreases n
  {
    if n < 10 then [DigitChar(n)] else Decimal(n / 10) + [DigitChar(n % 10)]
  }

  lemma {:induction false} DecimalValue(n: nat)
    ensures DigitsValue(Decimal(n)) == n
    decreases n
  {
    if n >= 10 {
      var s := Decimal(n);
      DecimalValue(n / 10);
      assert s[..|s| - 1] == Decimal(n / 10);
    }
  }

  /** Formatting a `u64` and parsing it back gives the same number. */
  lemma DecimalRoundTrip(n: nat)
    requires n < U64Limit
    ensures ParseU64(Decimal(n)) == Some(n)
  {
    DecimalValue(n);
  }

  /** A leading `+` before any digit string that fits in 64 bits is
      accepted, as Rust's parser accepts it: `+007` is 7. */
  lemma PlusSignAccepted(s: string)
    requires s != [] && AllDigits(s) && DigitsValue(s) < U64Limit
    ensures ParseU64("+" + s) == Some(DigitsValue(s))
  {
    assert ("+" + s)[1..] == s;
  }

  /** A sign alone, an empty string and a minus sign are rejected. */
  lemma MalformedNumeralsRejected(s: string)
    requires s == [] || s == "+" || (|s| > 0 && s[0] == '-')
    ensures ParseU64(s).None?
  {
    if |s| > 0 && s[0] == '-' {
      assert !IsDigit(s[0]);
    }
  }

  /** Every non-empty string of digits whose value fits in 64 bits parses to
      that value, leading zeros included. */
  lemma DigitStringsParse(s: string)
    requires s != [] && AllDigits(s) && DigitsValue(s) < U64Limit
    ensures ParseU64(s) == Some(DigitsValue(s))
  {
    assert IsDigit(s[0]);
    assert s[0..] == s;
  }

  /** A string of digits whose value is 2^64 or more is rejected. */
  lemma OverflowRejected(s: string)
    requires s != [] && AllDigits(s) && DigitsValue(s) >= U64Limit
    ensures ParseU64(s).None?
  {
    assert IsDigit(s[0]);
    assert s[0..] == s;
  }
}
