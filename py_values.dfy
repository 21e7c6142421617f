/**
 * The few Python notions the scanner's logic relies on: optional and
 * failure-carrying values, the dictionary values it stores (int, str and
 * None), their truthiness, `dict.get`, and `str()` on integers.
 */
module PyValues {

  datatype Option<+T> = None | Some(value: T)

  datatype Result<+T, +E> = Success(value: T) | Failure(error: E)

  /** A value held in one of the scanner's result dictionaries. */
  datatype Value = Null | Int(num: int) | Str(text: string)

  /** A Python dictionary with string keys, as the result records are. */
  type Dict = map<string, Value>

  /** Python's `bool(v)`. */
  predicate Truthy(v: Value) {
    match v
    case Null => false
    case Int(n) => n != 0
    case Str(s) => s != ""
  }

  /** Python's `d.get(k)`: the value under `k`, or None when `k` is missing. */
  function Get(d: Dict, k: string): Value {
    if k in d then d[k] else Null
  }

  predicate IsDigit(c: char) {
    '0' <= c <= '9'
  }

  function DigitChar(d: nat): (c: char)
    requires d < 10
    ensures IsDigit(c) && c as int - '0' as int == d
  {
    ('0' as int + d) as char
  }

  /** The decimal numeral of `n`, as `str(n)` writes a non-negative int. */
  function NatToDecimal(n: nat): (s: string)
    ensures |s| >= 1
    ensures forall i :: 0 <= i < |s| ==> IsDigit(s[i])
    ensures |s| > 1 ==> s[0] != '0'
  {
    if n < 10 then [DigitChar(n)] else NatToDecimal(n / 10) + [DigitChar(n % 10)]
  }

  /** The number a string of decimal digits denotes (an independent reading of a numeral). */
  function DecimalValue(s: string): int {
    if s == [] then 0 else DecimalValue(s[..|s| - 1]) * 10 + (s[|s| - 1] as int - '0' as int)
  }

  /** Reading back the numeral `NatToDecimal` writes gives the number. */
  lemma {:induction false} DecimalRoundTrip(n: nat)
    ensures DecimalValue(NatToDecimal(n)) == n
  {
    if n >= 10 {
      var s := NatToDecimal(n / 10) + [DigitChar(n % 10)];
      assert s[..|s| - 1] == NatToDecimal(n / 10);
      DecimalRoundTrip(n / 10);
    }
  }

  /**
   * Python's `str(i)` for an int: a minus sign exactly for negatives, then
   * the numeral of the magnitude, with no leading zero.
   */
  function IntToDecimal(i: int): (s: string)
    ensures |s| >= 1
    ensures s[0] == '-' <==> i < 0
    ensures i < 0 ==> |s| >= 2 && (forall k :: 1 <= k < |s| ==> IsDigit(s[k])) && (|s| > 2 ==> s[1] != '0')
    ensures i >= 0 ==> (forall k :: 0 <= k < |s| ==> IsDigit(s[k])) && (|s| > 1 ==> s[0] != '0')
  {
    if i < 0 then "-" + NatToDecimal(-i) else NatToDecimal(i)
  }

  /** The integer a numeral with an optional leading minus sign denotes. */
  function SignedDecimalValue(s: string): int {
    if |s| > 0 && s[0] == '-' then -DecimalValue(s[1..]) else DecimalValue(s)
  }

  /** `str(i)` is inverted by reading the numeral back. */
  lemma IntToDecimalRoundTrip(i: int)
    ensures SignedDecimalValue(IntToDecimal(i)) == i
  {
    if i < 0 {
      assert IntToDecimal(i)[1..] == NatToDecimal(-i);
      DecimalRoundTrip(-i);
    } else {
      DecimalRoundTrip(i);
    }
  }

  /** Python's `str(v)` on a dictionary value. */
  function PyStr(v: Value): string {
    match v
    case Null => "None"
    case Int(n) => IntToDecimal(n)
    case Str(s) => s
  }
}
