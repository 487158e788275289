/** Decimal text of 64-bit integers, as the cache stores counts.
    `ToDecimal` is Java's `Long.toString`, `ParseLong` is Java's
    `Long.parseLong` and `ParseStrict` is the integer parser the cache server
    applies before INCR/DECR (it accepts only the canonical decimal form).
    The 64-bit range check of both parsers is not modelled. */
module Decimal {
  import opened Wrappers

  predicate IsDigit(c: char) {
    '0' <= c <= '9'
  }

  predicate AllDigits(s: string) {
    forall i :: 0 <= i < |s| ==> IsDigit(s[i])
  }

  function DigitChar(d: nat): (c: char)
    requires d < 10
    ensures IsDigit(c) && c as int - '0' as int == d
  {
    "0123456789"[d]
  }

  function DigitValue(c: char): (d: nat)
    requires IsDigit(c)
    ensures d < 10
  {
    c as int - '0' as int
  }

  /** Digits of `n`, most significant first, without leading zeros. */
  function NatToDigits(n: nat): (s: string)
    ensures |s| >= 1 && AllDigits(s)
    ensures |s| > 1 ==> s[0] != '0'
    ensures s[0] == '0' ==> n == 0
  {
    if n < 10 then [DigitChar(n)] else NatToDigits(n / 10) + [DigitChar(n % 10)]
  }

  /** The value of a run of decimal digits (leading zeros allowed; empty is 0). */
  function DigitsValue(s: string): nat
    requires AllDigits(s)
  {
    if |s| == 0 then 0 else DigitsValue(s[..|s| - 1]) * 10 + DigitValue(s[|s| - 1])
  }

  /** `Long.toString(n)`: a minus sign for negative values, then the digits
      of the magnitude without leading zeros. */
  function ToDecimal(n: int): (r: string)
    ensures n >= 0 ==> |r| >= 1 && AllDigits(r) && (r[0] == '0' ==> r == "0" && n == 0)
    ensures n < 0 ==> |r| >= 2 && r[0] == '-' && AllDigits(r[1..]) && r[1] != '0'
  {
    if n < 0 then "-" + NatToDigits(-n) else NatToDigits(n)
  }

  /** `Long.parseLong(s)`: an optional `+` or `-` followed by at least one
      digit; anything else is a `NumberFormatException`, modelled as `None`. */
  function ParseLong(s: string): (r: Option<int>)
    ensures r.Some? <==>
      || (|s| >= 1 && AllDigits(s))
      || (|s| >= 2 && (s[0] == '-' || s[0] == '+') && AllDigits(s[1..]))
  {
    if |s| == 0 then None
    else if s[0] == '-' || s[0] == '+' then
      if |s| == 1 || !AllDigits(s[1..]) then None
      else if s[0] == '-' then Some(-(DigitsValue(s[1..]) as int))
      else Some(DigitsValue(s[1..]))
    else if AllDigits(s) then Some(DigitsValue(s))
    else None
  }

  /** The cache server's integer parser: only text that `ToDecimal` could
      have produced (no `+`, no leading zeros, no `-0`) is an integer. */
  function ParseStrict(s: string): (r: Option<int>)
    ensures r.Some? ==> ToDecimal(r.value) == s
  {
    match ParseLong(s)
    case Some(n) => if ToDecimal(n) == s then Some(n) else None
    case None => None
  }

  lemma {:induction false} DigitsRoundTrip(n: nat)
    ensures DigitsValue(NatToDigits(n)) == n
    decreases n
  {
    if n >= 10 {
      var s := NatToDigits(n);
      DigitsRoundTrip(n / 10);
      assert s[..|s| - 1] == NatToDigits(n / 10);
    }
  }

  /** What `Long.toString` writes, `Long.parseLong` reads back unchanged. */
  lemma ParseLongRoundTrip(n: int)
    ensures ParseLong(ToDecimal(n)) == Some(n)
  {
    var s := ToDecimal(n);
    if n < 0 {
      DigitsRoundTrip(-n);
      assert s[1..] == NatToDigits(-n);
    } else {
      DigitsRoundTrip(n);
      assert s[0] != '-' && s[0] != '+';
    }
  }

  /** The canonical text of a value is accepted by the strict parser, and the
      strict parser accepts nothing else: `ParseStrict(s) == Some(n)` exactly
      when `s` is the canonical text of `n`. */
  lemma ParseStrictIff(s: string, n: int)
    ensures ParseStrict(s) == Some(n) <==> s == ToDecimal(n)
  {
    if s == ToDecimal(n) {
      ParseLongRoundTrip(n);
    }
  }

  /** Distinct values have distinct texts. */
  lemma ToDecimalInjective(a: int, b: int)
    ensures ToDecimal(a) == ToDecimal(b) ==> a == b
  {
    ParseLongRoundTrip(a);
    ParseLongRoundTrip(b);
  }

  /** Anything the strict parser accepts, the lenient parser reads the same. */
  lemma StrictImpliesLenient(s: string)
    requires ParseStrict(s).Some?
    ensures ParseLong(s) == ParseStrict(s)
  {
  }
}
