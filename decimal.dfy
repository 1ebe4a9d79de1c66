/**
 * Decimal text of integers as the JDK writes and reads it: `String.valueOf(int)`,
 * `Long.toString(long)`, `Long.parseLong(String)` and `Integer.valueOf(String)`.
 * Only ASCII digits are modelled.
 */
module Decimal {
  import opened Wrappers

  const MinLong: int := -0x8000_0000_0000_0000
  const MaxLong: int := 0x7fff_ffff_ffff_ffff
  const MinInt: int := -0x8000_0000
  const MaxInt: int := 0x7fff_ffff

  /** A Java `int`. */
  type Int32 = x: int | MinInt <= x <= MaxInt

  predicate IsDigit(c: char) { '0' <= c <= '9' }

  predicate AllDigits(s: string) { forall i :: 0 <= i < |s| ==> IsDigit(s[i]) }

  function DigitChar(d: nat): (c: char)
    requires d < 10
    ensures IsDigit(c) && c as int - '0' as int == d
  {
    ('0' as int + d) as char
  }

  /** The value of a run of decimal digits, most significant first. */
  function DigitsValue(s: string): nat
    requires AllDigits(s)
    decreases |s|
  {
    if s == [] then 0
    else 10 * DigitsValue(s[..|s| - 1]) + (s[|s| - 1] as int - '0' as int)
  }

  /** The shortest digit string of `n`: no leading zeros. */
  function FormatNat(n: nat): (s: string)
    ensures s != [] && AllDigits(s)
    ensures |s| > 1 ==> s[0] != '0'
    decreases n
  {
    if n < 10 then [DigitChar(n)] else FormatNat(n / 10) + [DigitChar(n % 10)]
  }

  /** `String.valueOf(n)` / `Long.toString(n)`: a minus sign for negatives, then the digits. */
  function Format(n: int): (s: string)
    ensures s != []
    ensures (s[0] == '-') <==> n < 0
  {
    if n < 0 then "-" + FormatNat(-n) else FormatNat(n)
  }

  /**
   * The number grammar of `Long.parseLong` and `Integer.parseInt` in radix 10: an optional
   * `-` or `+`, then one or more digits. None where those methods throw NumberFormatException
   * for the shape of the text; the range check is in ParseLong and ParseInt.
   */
  function Parse(s: string): (r: Option<int>)
    ensures r.Some? ==> s != [] && AllDigits(if s[0] == '-' || s[0] == '+' then s[1..] else s)
  {
    if s == [] then None
    else if s[0] == '-' || s[0] == '+' then
      if |s| > 1 && AllDigits(s[1..]) then
        var magnitude: int := DigitsValue(s[1..]);
        Some(if s[0] == '-' then -magnitude else magnitude)
      else None
    else if AllDigits(s) then Some(DigitsValue(s))
    else None
  }

  /** `Long.parseLong(s)`: None where it throws NumberFormatException. */
  function ParseLong(s: string): (r: Option<int>)
    ensures r.Some? <==> Parse(s).Some? && MinLong <= Parse(s).value <= MaxLong
    ensures r.Some? ==> Parse(s) == r
  {
    match Parse(s)
    case Some(n) => if MinLong <= n <= MaxLong then Some(n) else None
    case None => None
  }

  /** `Integer.valueOf(s)`: None where it throws NumberFormatException. */
  function ParseInt(s: string): (r: Option<Int32>)
    ensures r.Some? <==> Parse(s).Some? && MinInt <= Parse(s).value <= MaxInt
    ensures r.Some? ==> Parse(s) == Some(r.value as int)
  {
    match Parse(s)
    case Some(n) => if MinInt <= n <= MaxInt then Some(n) else None
    case None => None
  }

  lemma {:induction false} FormatNatValue(n: nat)
    ensures DigitsValue(FormatNat(n)) == n
    decreases n
  {
    if n >= 10 {
      FormatNatValue(n / 10);
      var s := FormatNat(n);
      assert s[..|s| - 1] == FormatNat(n / 10);
    }
  }

  /** Reading back what Format wrote gives the number again. */
  lemma FormatParse(n: int)
    ensures Parse(Format(n)) == Some(n)
  {
    if n < 0 {
      FormatNatValue(-n);
      assert Format(n)[1..] == FormatNat(-n);
    } else {
      FormatNatValue(n);
    }
  }

  /** A Java `long` survives `Long.toString` followed by `Long.parseLong`. */
  lemma FormatParseLong(n: int)
    requires MinLong <= n <= MaxLong
    ensures ParseLong(Format(n)) == Some(n)
  {
    FormatParse(n);
  }

  /** A Java `int` survives `String.valueOf` followed by `Integer.valueOf`. */
  lemma FormatParseInt(n: Int32)
    ensures ParseInt(Format(n)) == Some(n)
  {
    FormatParse(n);
  }
}
