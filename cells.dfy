/**
 The cell values of the input document and how the converter turns each one
 into the text written to the sheet: the value's Python `str()` form, except
 that a JSON null becomes the empty string.
 */
module Cells {

  /** A JSON scalar as decoded: string, integer, boolean or null. */
  datatype Cell = Str(text: string) | Int(number: int) | Bool(flag: bool) | Null

  predicate IsDigit(ch: char) {
    '0' <= ch <= '9'
  }

  predicate IsDigits(s: string) {
    |s| > 0 && forall k | 0 <= k < |s| :: IsDigit(s[k])
  }

  /** Digits without a leading zero, as Python prints a non-negative integer. */
  predicate IsCanonicalNat(s: string) {
    IsDigits(s) && (s[0] == '0' ==> |s| == 1)
  }

  /** A canonical natural, or a minus sign before a canonical non-zero natural. */
  predicate IsCanonicalInt(s: string) {
    IsCanonicalNat(s) || (|s| > 1 && s[0] == '-' && IsCanonicalNat(s[1..]) && s[1..] != "0")
  }

  function DigitChar(d: nat): (ch: char)
    requires d < 10
    ensures IsDigit(ch) && DigitValue(ch) == d
  {
    ('0' as int + d) as char
  }

  function DigitValue(ch: char): nat
    requires IsDigit(ch)
  {
    ch as int - '0' as int
  }

  /** Decimal text of a natural number, most significant digit first. */
  function NatToDecimal(n: nat): string
    decreases n
  {
    if n < 10 then [DigitChar(n)] else NatToDecimal(n / 10) + [DigitChar(n % 10)]
  }

  /** Python's `str()` of an int: an optional minus sign and the decimal digits. */
  function IntToDecimal(i: int): (r: string)
    ensures |r| > 0
    ensures r[0] == '-' <==> i < 0
  {
    if i < 0 then "-" + NatToDecimal(-i)
    else NatToDecimalRoundTrip(i); NatToDecimal(i)
  }

  /** The value a string of digits denotes. */
  function DecimalValue(s: string): nat
    requires forall k | 0 <= k < |s| :: IsDigit(s[k])
    decreases |s|
  {
    if s == [] then 0 else DecimalValue(s[..|s| - 1]) * 10 + DigitValue(s[|s| - 1])
  }

  /** Reads back a canonical integer text. */
  function ParseInt(s: string): int
    requires IsCanonicalInt(s)
  {
    if s[0] == '-' then -(DecimalValue(s[1..]) as int) else DecimalValue(s)
  }

  lemma {:induction false} NatToDecimalRoundTrip(n: nat)
    ensures IsCanonicalNat(NatToDecimal(n))
    ensures DecimalValue(NatToDecimal(n)) == n
    ensures NatToDecimal(n) == "0" <==> n == 0
    decreases n
  {
    var s := NatToDecimal(n);
    if n >= 10 {
      var t := NatToDecimal(n / 10);
      NatToDecimalRoundTrip(n / 10);
      assert s == t + [DigitChar(n % 10)];
      assert s[..|s| - 1] == t;
      assert s[0] == t[0];
      assert |s| > 1;
    }
  }

  /** The text of an integer is canonical and reads back as the same integer. */
  lemma {:induction false} IntToDecimalRoundTrip(i: int)
    ensures IsCanonicalInt(IntToDecimal(i))
    ensures ParseInt(IntToDecimal(i)) == i
  {
    if i < 0 {
      NatToDecimalRoundTrip(-i);
      var s := IntToDecimal(i);
      assert s[1..] == NatToDecimal(-i);
    } else {
      NatToDecimalRoundTrip(i);
    }
  }

  /** Distinct integers never share a text. */
  lemma IntToDecimalInjective(i: int, j: int)
    requires IntToDecimal(i) == IntToDecimal(j)
    ensures i == j
  {
    IntToDecimalRoundTrip(i);
    IntToDecimalRoundTrip(j);
  }

  /** Python's `str()` of a decoded JSON scalar; `None` prints as "None". */
  function PyStr(c: Cell): (r: string)
    ensures c.Str? ==> r == c.text
    ensures c.Int? ==> IsCanonicalInt(r) && ParseInt(r) == c.number
    ensures c.Bool? ==> (r == "True" || r == "False") && (r == "True" <==> c.flag)
    ensures c.Null? ==> r == "None"
  {
    match c
    case Str(s) => s
    case Int(i) => IntToDecimalRoundTrip(i); IntToDecimal(i)
    case Bool(b) => if b then "True" else "False"
    case Null => "None"
  }

  /**
   The text the converter writes for a cell: empty for null, otherwise the
   cell's `str()` form, unchanged and untruncated.
   */
  function Normalise(c: Cell): (r: string)
    ensures c.Null? ==> r == ""
    ensures !c.Null? ==> r == PyStr(c)
    ensures c.Str? ==> r == c.text
    ensures c.Int? ==> IsCanonicalInt(r) && ParseInt(r) == c.number
    ensures c.Bool? ==> r == "True" || r == "False"
    ensures c.Bool? ==> (r == "True" <==> c.flag)
  {
    if c.Null? then "" else PyStr(c)
  }
}
