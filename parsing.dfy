/**
  Swift's failable integer initialisers from text, `UInt32(text)` and `Int32(text)`:
  an optional leading `+` or `-`, then one or more ASCII digits, and the value must be
  one the type can hold.  A minus sign on an unsigned type is accepted only when the
  digits are all zero ("-0" is 0).
*/
module IntegerParsing {
  import opened Wrappers

  const UInt32Max: int := 0xFFFF_FFFF
  const Int32Min: int := -0x8000_0000
  const Int32Max: int := 0x7FFF_FFFF

  predicate IsInt32(x: int) {
    Int32Min <= x <= Int32Max
  }

  predicate IsDigit(ch: char) {
    '0' <= ch <= '9'
  }

  predicate AllDigits(s: string) {
    forall i :: 0 <= i < |s| ==> IsDigit(s[i])
  }

  function DigitValue(ch: char): (d: int)
    requires IsDigit(ch)
    ensures 0 <= d <= 9
  {
    ch as int - '0' as int
  }

  function DigitChar(d: int): (ch: char)
    requires 0 <= d <= 9
    ensures IsDigit(ch) && DigitValue(ch) == d
  {
    (d + '0' as int) as char
  }

  /** The value of a run of decimal digits, most significant first. */
  function DigitsValue(s: string): (v: nat)
    requires AllDigits(s)
  {
    if s == [] then 0 else DigitsValue(s[..|s| - 1]) * 10 + DigitValue(s[|s| - 1])
  }

  /** The sign and the digits of a numeral: a leading `-` or `+` is taken off. */
  function SplitSign(text: string): (split: (bool, string))
    requires text != []
    ensures split.0 ==> text == ['-'] + split.1
    ensures !split.0 ==> split.1 == text || text == ['+'] + split.1
  {
    if text[0] == '-' then (true, text[1..])
    else if text[0] == '+' then (false, text[1..])
    else (false, text)
  }

  /** `T(text)` for an integer type `T` whose values are `lo...hi`. */
  function ParseInteger(text: string, lo: int, hi: int): (r: Option<int>)
    ensures r.Some? ==> lo <= r.value <= hi
  {
    if text == [] then None
    else
      var (negative, digits) := SplitSign(text);
      if digits == [] || !AllDigits(digits) then None
      else
        var v: int := if negative then -(DigitsValue(digits) as int) else DigitsValue(digits);
        if lo <= v <= hi then Some(v) else None
  }

  function ParseUInt32(text: string): (r: Option<int>)
    ensures r.Some? ==> 0 <= r.value <= UInt32Max
  {
    ParseInteger(text, 0, UInt32Max)
  }

  function ParseInt32(text: string): (r: Option<int>)
    ensures r.Some? ==> IsInt32(r.value)
  {
    ParseInteger(text, Int32Min, Int32Max)
  }

  /** The decimal numeral of `n` with no leading zeros: Swift's `String(n)`. */
  function Decimal(n: nat): (s: string)
    ensures s != [] && AllDigits(s)
    ensures s[0] == '0' ==> n == 0
  {
    if n < 10 then [DigitChar(n)] else Decimal(n / 10) + [DigitChar(n % 10)]
  }

  /** The numeral of any integer: a `-` in front of the numeral of its magnitude when negative. */
  function Numeral(v: int): (s: string)
    ensures s != []
  {
    if v < 0 then ['-'] + Decimal(-v) else Decimal(v)
  }

  lemma {:induction false} DecimalValue(n: nat)
    ensures DigitsValue(Decimal(n)) == n
  {
    if n >= 10 {
      var s := Decimal(n);
      assert s[..|s| - 1] == Decimal(n / 10);
      DecimalValue(n / 10);
    }
  }

  /** Reading back a rendered numeral gives the value exactly when the type can hold it. */
  lemma ParseNumeral(v: int, lo: int, hi: int)
    ensures ParseInteger(Numeral(v), lo, hi) == if lo <= v <= hi then Some(v) else None
  {
    var s := Numeral(v);
    if v < 0 {
      DecimalValue(-v);
      assert SplitSign(s) == (true, Decimal(-v));
    } else {
      DecimalValue(v);
      assert SplitSign(s) == (false, Decimal(v));
    }
  }

  /** A numeral that one type accepts is accepted, with the same value, by every type that can hold that value. */
  lemma ParseAcrossTypes(text: string, lo: int, hi: int, lo': int, hi': int)
    requires ParseInteger(text, lo, hi).Some?
    requires lo' <= ParseInteger(text, lo, hi).value <= hi'
    ensures ParseInteger(text, lo', hi') == ParseInteger(text, lo, hi)
  {
  }

  /** `UInt32(text)` turns a minus sign into a failure unless the digits are all zero. */
  lemma UnsignedMinusIsZero(text: string)
    requires text != [] && text[0] == '-'
    requires ParseUInt32(text).Some?
    ensures ParseUInt32(text).value == 0
  {
  }

  /** Whatever parses consists of an optional sign followed by digits only. */
  lemma ParsedTextIsNumeral(text: string, lo: int, hi: int)
    requires ParseInteger(text, lo, hi).Some?
    ensures |text| >= 1
    ensures forall i :: 0 < i < |text| ==> IsDigit(text[i])
    ensures IsDigit(text[0]) || text[0] == '-' || text[0] == '+'
  {
    var (negative, digits) := SplitSign(text);
    if text[0] == '-' || text[0] == '+' {
      assert forall i :: 0 < i < |text| ==> text[i] == digits[i - 1];
    } else {
      assert digits == text;
    }
  }
}
