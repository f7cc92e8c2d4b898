/**
 * The scalar values a service record's fields can hold once the YAML source is
 * loaded, and how an f-string interpolates them (Python's `str()`).
 */
module Scalars {

  /** A YAML scalar as the loader delivers it: text, an integer, a boolean or null. */
  datatype Scalar = Str(s: string) | Int(n: int) | Bool(b: bool) | Null

  predicate IsDigit(c: char) {
    '0' <= c <= '9'
  }

  predicate AllDigits(s: string) {
    forall i :: 0 <= i < |s| ==> IsDigit(s[i])
  }

  function DigitChar(d: nat): (c: char)
    requires d < 10
    ensures IsDigit(c) && c as int - '0' as int == d
  {
    ('0' as int + d) as char
  }

  /** Decimal digits of `n`, most significant first, with no leading zero. */
  function NatToDecimal(n: nat): (r: string)
    ensures |r| > 0 && AllDigits(r)
    ensures (r[0] == '0') == (n == 0)
    ensures n == 0 ==> r == "0"
    decreases n
  {
    if n < 10 then [DigitChar(n)] else NatToDecimal(n / 10) + [DigitChar(n % 10)]
  }

  /** The number a string of decimal digits denotes. */
  function DecimalValue(s: string): nat
    requires AllDigits(s)
    decreases |s|
  {
    if s == [] then 0 else DecimalValue(s[..|s| - 1]) * 10 + (s[|s| - 1] as int - '0' as int)
  }

  lemma {:induction false} DecimalRoundTrip(n: nat)
    ensures DecimalValue(NatToDecimal(n)) == n
    decreases n
  {
    if n >= 10 {
      DecimalRoundTrip(n / 10);
      var r := NatToDecimal(n);
      assert r[..|r| - 1] == NatToDecimal(n / 10);
    }
  }

  /** Python's `str(n)` for an integer: an optional minus sign, then the digits of `|n|`. */
  function IntToText(n: int): string {
    if n < 0 then "-" + NatToDecimal(-n) else NatToDecimal(n)
  }

  /** What `f"{v}"` produces for a scalar `v`. */
  function Show(v: Scalar): string {
    match v
    case Str(s) => s
    case Int(n) => IntToText(n)
    case Bool(b) => if b then "True" else "False"
    case Null => "None"
  }

  /** An interpolated integer reads back as the same integer, so a port or replica count keeps its value. */
  lemma ShowIntReadsBack(n: int)
    ensures var t := Show(Int(n));
      && (n < 0 ==> |t| > 1 && t[0] == '-' && AllDigits(t[1..]) && DecimalValue(t[1..]) == -n)
      && (n >= 0 ==> AllDigits(t) && DecimalValue(t) == n)
  {
    if n < 0 {
      DecimalRoundTrip(-n);
      assert Show(Int(n))[1..] == NatToDecimal(-n);
    } else {
      DecimalRoundTrip(n);
    }
  }

  /** An interpolated integer never contains a line break. */
  lemma ShowIntSingleLine(n: int)
    ensures '\n' !in Show(Int(n))
  {
    var d := NatToDecimal(if n < 0 then -n else n);
    assert forall i :: 0 <= i < |d| ==> d[i] != '\n';
  }
}
