/**
 * Field values as they arrive from a composite value, and Python's `str()`
 * of them, which is what `"{0}".format(v)` produces for these types.
 */
module Values {

  datatype Option<T> = None | Some(value: T)

  /** A raw field value of a composite: an integer column, a text column, or SQL NULL (Python `None`). */
  datatype Value = IntVal(i: int) | StrVal(s: string) | NoneVal

  predicate IsDigit(c: char) {
    '0' <= c <= '9'
  }

  predicate AllDigits(s: string) {
    forall k :: 0 <= k < |s| ==> IsDigit(s[k])
  }

  function DigitChar(d: nat): (c: char)
    requires d < 10
    ensures IsDigit(c) && c as int - '0' as int == d
  {
    ('0' as int + d) as char
  }

  function DigitValue(c: char): (d: nat)
    requires IsDigit(c)
    ensures d < 10 && DigitChar(d) == c
  {
    c as int - '0' as int
  }

  /** Decimal digits of a natural number, most significant first, without leading zeros. */
  function NatToDecimal(n: nat): (s: string)
    ensures |s| >= 1 && AllDigits(s)
    ensures s[0] == '0' ==> n == 0 && s == "0"
    decreases n
  {
    if n < 10 then [DigitChar(n)] else NatToDecimal(n / 10) + [DigitChar(n % 10)]
  }

  /** Python's `str(n)` for an `int`: a minus sign for negative numbers, then the digits of the magnitude. */
  function IntToDecimal(n: int): (s: string)
    ensures |s| >= 1
    ensures n < 0 <==> s[0] == '-'
    ensures n >= 0 ==> AllDigits(s)
    ensures n < 0 ==> AllDigits(s[1..])
    ensures n >= 0 ==> (s[0] == '0' ==> s == "0")
    ensures n < 0 ==> |s| >= 2 && s[1] != '0'
  {
    if n < 0 then "-" + NatToDecimal(-n) else NatToDecimal(n)
  }

  /** Reads back a string of decimal digits. */
  function DecimalToNat(s: string): (n: nat)
    requires AllDigits(s)
    decreases |s|
  {
    if s == [] then 0 else DecimalToNat(s[..|s| - 1]) * 10 + DigitValue(s[|s| - 1])
  }

  /** Reads back an optionally signed decimal numeral; `None` for anything else. */
  function ParseInt(s: string): (r: Option<int>)
    ensures r.Some? <==> (|s| >= 1 && AllDigits(s)) || (|s| >= 2 && s[0] == '-' && AllDigits(s[1..]))
  {
    if |s| >= 1 && AllDigits(s) then var m: int := DecimalToNat(s); Some(m)
    else if |s| >= 2 && s[0] == '-' && AllDigits(s[1..]) then var m: int := DecimalToNat(s[1..]); Some(-m)
    else None
  }

  lemma {:induction false} NatDecimalRoundTrip(n: nat)
    ensures DecimalToNat(NatToDecimal(n)) == n
    decreases n
  {
    if n >= 10 {
      var s := NatToDecimal(n);
      NatDecimalRoundTrip(n / 10);
      assert s[..|s| - 1] == NatToDecimal(n / 10);
    }
  }

  /** The decimal text of an integer determines the integer. */
  lemma IntDecimalRoundTrip(n: int)
    ensures ParseInt(IntToDecimal(n)) == Some(n)
  {
    var s := IntToDecimal(n);
    if n < 0 {
      NatDecimalRoundTrip(-n);
      assert s[1..] == NatToDecimal(-n);
      assert !IsDigit(s[0]);
    } else {
      NatDecimalRoundTrip(n);
      assert s == NatToDecimal(n);
    }
  }

  lemma IntToDecimalInjective(a: int, b: int)
    requires IntToDecimal(a) == IntToDecimal(b)
    ensures a == b
  {
    IntDecimalRoundTrip(a);
    IntDecimalRoundTrip(b);
  }

  /** Python's `str()` of a field value: an `int` in decimal, a `str` unchanged, `None` as the word None. */
  function ValueStr(v: Value): (s: string)
    ensures v.StrVal? ==> s == v.s
    ensures v.IntVal? ==> s == IntToDecimal(v.i) && ParseInt(s) == Some(v.i)
    ensures v.NoneVal? ==> s == "None"
  {
    match v
    case IntVal(n) => IntDecimalRoundTrip(n); IntToDecimal(n)
    case StrVal(t) => t
    case NoneVal => "None"
  }
}
