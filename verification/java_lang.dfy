/** The pieces of Java's `long` arithmetic and of `java.lang` that the task
    model depends on: the 64-bit range, wrap-around subtraction, division that
    truncates toward zero, and the decimal text of `String.valueOf(long)`
    together with a decoder that inverts it. */
module JavaLang {
  import opened Optional

  const MinLong: int := -0x8000_0000_0000_0000
  const MaxLong: int := 0x7fff_ffff_ffff_ffff
  const LongModulus: int := 0x1_0000_0000_0000_0000

  /** Java's primitive `long`. */
  type Long = x: int | MinLong <= x <= MaxLong

  /** `a - b` evaluated in two's-complement 64-bit arithmetic: the long
      that agrees with the exact difference modulo 2^64 (there is exactly one
      in the range), which is the exact difference whenever that fits. */
  function Sub(a: Long, b: Long): (r: Long)
    ensures (a - b - r) % LongModulus == 0
    ensures MinLong <= a - b <= MaxLong ==> r == a - b
  {
    var d := a - b;
    if d > MaxLong then d - LongModulus
    else if d < MinLong then d + LongModulus
    else d
  }

  /** Java's integer `/`, which truncates toward zero (Dafny's `/` is
      Euclidean and differs for a negative dividend). */
  function TruncDiv(a: int, b: int): (q: int)
    requires b > 0
    ensures a >= 0 ==> 0 <= a - q * b < b
    ensures a < 0 ==> -b < a - q * b <= 0
  {
    if a >= 0 then
      var q := a / b;
      assert a == q * b + a % b;
      q
    else
      var m := (-a) / b;
      assert -a == m * b + (-a) % b;
      -m
  }

  // ----- decimal text of a long -----

  predicate IsDigit(c: char) {
    '0' <= c <= '9'
  }

  predicate AllDigits(s: string) {
    forall i :: 0 <= i < |s| ==> IsDigit(s[i])
  }

  function DigitChar(d: nat): (c: char)
    requires d < 10
    ensures IsDigit(c) && c as int - '0' as int == d
  {
    ('0' as int + d) as char
  }

  /** Decimal digits of `n` without leading zeros ("0" for zero). */
  function NatToDecimal(n: nat): (s: string)
    ensures |s| > 0 && AllDigits(s)
    ensures |s| > 1 ==> s[0] != '0'
    decreases n
  {
    if n < 10 then [DigitChar(n)] else NatToDecimal(n / 10) + [DigitChar(n % 10)]
  }

  /** Value of a string of decimal digits, most significant first. */
  function DecimalValue(s: string): nat
    requires AllDigits(s)
  {
    if |s| == 0 then 0
    else DecimalValue(s[..|s| - 1]) * 10 + (s[|s| - 1] as int - '0' as int)
  }

  /** `String.valueOf(long)`: an optional minus sign followed by the decimal
      digits of the magnitude. */
  function LongToString(x: Long): (s: string)
    ensures |s| > 0
    ensures x >= 0 <==> AllDigits(s)
    ensures x < 0 <==> s[0] == '-'
  {
    if x < 0 then
      var s := "-" + NatToDecimal(-(x as int));
      assert !IsDigit(s[0]);
      s
    else NatToDecimal(x)
  }

  /** Reads back the text `LongToString` produces; `None` for anything that
      is not an optional minus sign followed by digits of a value in range. */
  function DecodeLong(s: string): Option<Long>
  {
    if |s| > 1 && s[0] == '-' && AllDigits(s[1..]) then
      var v := -(DecimalValue(s[1..]) as int);
      if MinLong <= v then Some(v) else None
    else if |s| > 0 && AllDigits(s) then
      var v := DecimalValue(s);
      if v <= MaxLong then Some(v) else None
    else None
  }

  lemma {:induction false} DecimalRoundTrip(n: nat)
    ensures DecimalValue(NatToDecimal(n)) == n
    decreases n
  {
    var s := NatToDecimal(n);
    if n >= 10 {
      DecimalRoundTrip(n / 10);
      assert s[..|s| - 1] == NatToDecimal(n / 10);
    }
  }

  /** The decimal text of every long decodes back to that long. */
  lemma LongRoundTrip(x: Long)
    ensures DecodeLong(LongToString(x)) == Some(x)
  {
    var s := LongToString(x);
    if x < 0 {
      assert s[1..] == NatToDecimal(-(x as int));
      DecimalRoundTrip(-(x as int));
    } else {
      DecimalRoundTrip(x);
    }
  }

  /** Distinct longs render as distinct text. */
  lemma LongToStringInjective(x: Long, y: Long)
    requires LongToString(x) == LongToString(y)
    ensures x == y
  {
    LongRoundTrip(x);
    LongRoundTrip(y);
  }
}
