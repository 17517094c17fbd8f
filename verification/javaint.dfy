/**
 * Java's 32-bit `int`: its range, two's-complement wrap-around, decimal
 * rendering (`Integer.toString`, also used by string concatenation) and
 * `Integer.parseInt` restricted to ASCII digits.
 */
module JavaInt {
  import opened Wrappers

  const MinInt: int := -0x8000_0000
  const MaxInt: int := 0x7fff_ffff
  const Modulus: int := 0x1_0000_0000

  newtype int32 = x: int | -0x8000_0000 <= x < 0x8000_0000

  /** The value a Java `int` expression holds when its mathematical value is `x`. */
  function Wrap(x: int): (r: int32)
    ensures (r as int - x) % Modulus == 0
    ensures MinInt <= x <= MaxInt ==> r as int == x
  {
    ((x - MinInt) % Modulus + MinInt) as int32
  }

  predicate IsDigit(c: char) {
    '0' <= c <= '9'
  }

  function DigitChar(d: nat): (c: char)
    requires d < 10
    ensures IsDigit(c)
  {
    ('0' as int + d) as char
  }

  function DigitValue(c: char): nat
    requires IsDigit(c)
  {
    c as int - '0' as int
  }

  /** Decimal digits of a natural number, most significant first, without leading zeros. */
  function NatToString(n: nat): (s: string)
    ensures |s| > 0
    ensures forall i :: 0 <= i < |s| ==> IsDigit(s[i])
    decreases n
  {
    if n < 10 then [DigitChar(n)] else NatToString(n / 10) + [DigitChar(n % 10)]
  }

  /** `Integer.toString(i)`: an optional minus sign followed by the digits of `|i|`. */
  function IntToString(i: int): string {
    if i < 0 then "-" + NatToString(-i) else NatToString(i)
  }

  predicate AllDigits(s: string) {
    forall i :: 0 <= i < |s| ==> IsDigit(s[i])
  }

  /** The number a string of decimal digits denotes. */
  function DigitsValue(s: string): nat
    requires AllDigits(s)
  {
    if |s| == 0 then 0 else 10 * DigitsValue(s[..|s| - 1]) + DigitValue(s[|s| - 1])
  }

  lemma {:induction false} DigitsOfNat(n: nat)
    ensures DigitsValue(NatToString(n)) == n
    decreases n
  {
    var s := NatToString(n);
    if n >= 10 {
      DigitsOfNat(n / 10);
      assert s[..|s| - 1] == NatToString(n / 10);
    }
  }

  /**
   * `Integer.parseInt(s)`; `None` where Java throws `NumberFormatException`:
   * an empty string, a lone sign, a non-digit, or a value outside the `int` range.
   */
  function ParseInt(s: string): (r: Option<int32>)
    ensures r.Some? ==> |s| > 0
    ensures r.Some? && s[0] != '-' && s[0] != '+' ==> AllDigits(s) && r.value as int == DigitsValue(s)
    ensures r.Some? && (s[0] == '-' || s[0] == '+') ==> AllDigits(s[1..])
  {
    if |s| == 0 then None
    else
      var negative := s[0] == '-';
      var digits := if s[0] == '-' || s[0] == '+' then s[1..] else s;
      if |digits| == 0 || !AllDigits(digits) then None
      else
        var magnitude: int := DigitsValue(digits);
        var v := if negative then 0 - magnitude else magnitude;
        if MinInt <= v <= MaxInt then Some(v as int32) else None
  }

  /** Every `int` survives a trip through its decimal rendering and back. */
  lemma ParseIntToString(i: int32)
    ensures ParseInt(IntToString(i as int)) == Some(i)
  {
    var x := i as int;
    if x < 0 {
      DigitsOfNat(-x);
      var s := "-" + NatToString(-x);
      assert s[1..] == NatToString(-x);
    } else {
      DigitsOfNat(x);
    }
  }
}
