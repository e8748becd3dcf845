/**
 * How Python's `str` and f-strings render the scalar values the dashboard
 * cache puts into Redis: an integer in decimal (a minus sign for a negative
 * one, no leading zeros), a missing value as `None`, a boolean as `True` or
 * `False`.
 */
module PyFormat {
  import opened Wrappers

  function DigitChar(d: int): (c: char)
    requires 0 <= d < 10
    ensures '0' <= c <= '9' && c as int - '0' as int == d
  {
    ('0' as int + d) as char
  }

  predicate IsDigit(c: char) { '0' <= c <= '9' }

  function DigitValue(c: char): int
  {
    c as int - '0' as int
  }

  /** The decimal digits of `n`, most significant first. */
  function NatToString(n: nat): string
    decreases n
  {
    if n < 10 then [DigitChar(n)]
    else NatToString(n / 10) + [DigitChar(n % 10)]
  }

  /** `str(i)` for an `int`. */
  function IntToString(i: int): string
  {
    if i < 0 then "-" + NatToString(-i) else NatToString(i)
  }

  /** The value a run of decimal digits denotes. */
  function ParseNat(s: string): int
    decreases |s|
  {
    if |s| == 0 then 0
    else 10 * ParseNat(s[..|s| - 1]) + DigitValue(s[|s| - 1])
  }

  /** Reads back `str(i)`: an optional minus sign, then digits. */
  function ParseInt(s: string): int
  {
    if |s| > 0 && s[0] == '-' then -ParseNat(s[1..]) else ParseNat(s)
  }

  /** The digits of a natural number: at least one, all decimal, no leading zero unless the number is 0. */
  lemma {:induction false} NatToStringShape(n: nat)
    ensures |NatToString(n)| > 0
    ensures forall i :: 0 <= i < |NatToString(n)| ==> IsDigit(NatToString(n)[i])
    ensures NatToString(n)[0] == '0' <==> n == 0
    decreases n
  {
    if n >= 10 {
      NatToStringShape(n / 10);
      var s := NatToString(n / 10);
      assert NatToString(n) == s + [DigitChar(n % 10)];
      assert NatToString(n)[0] == s[0];
    }
  }

  lemma {:induction false} ParseNatOfNatToString(n: nat)
    ensures ParseNat(NatToString(n)) == n
    decreases n
  {
    var s := NatToString(n);
    if n < 10 {
      assert s[..0] == [];
    } else {
      ParseNatOfNatToString(n / 10);
      assert s[..|s| - 1] == NatToString(n / 10);
    }
  }

  /** Reading back the decimal rendering of an integer gives the integer. */
  lemma IntRoundTrip(i: int)
    ensures ParseInt(IntToString(i)) == i
  {
    if i < 0 {
      ParseNatOfNatToString(-i);
      assert IntToString(i)[1..] == NatToString(-i);
    } else {
      ParseNatOfNatToString(i);
      NatToStringShape(i);
    }
  }

  /** Distinct integers render differently. */
  lemma IntToStringInjective(a: int, b: int)
    requires IntToString(a) == IntToString(b)
    ensures a == b
  {
    IntRoundTrip(a);
    IntRoundTrip(b);
  }

  /** `str(x)` for an optional integer: `None`, or the decimal digits. */
  function OptionalIntToString(x: Option<int>): string
  {
    match x
    case None => "None"
    case Some(i) => IntToString(i)
  }

  /** Different optional integers render differently: no number prints as `None`. */
  lemma OptionalIntToStringInjective(x: Option<int>, y: Option<int>)
    requires OptionalIntToString(x) == OptionalIntToString(y)
    ensures x == y
  {
    match x {
      case None =>
        if y.Some? { IntStartsWithSignOrDigit(y.value); }
      case Some(a) =>
        if y.None? {
          IntStartsWithSignOrDigit(a);
        } else {
          IntToStringInjective(a, y.value);
        }
    }
  }

  lemma IntStartsWithSignOrDigit(i: int)
    ensures |IntToString(i)| > 0 && (IntToString(i)[0] == '-' || IsDigit(IntToString(i)[0]))
  {
    NatToStringShape(if i < 0 then -i else i);
  }

  /** `str(b)` for a boolean. */
  function BoolToString(b: bool): string
  {
    if b then "True" else "False"
  }
}
