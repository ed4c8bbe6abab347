/**
 * Base-ten text of integers as Rust's `format!` writes it: `{}` for unsigned
 * and signed values, `{:0w}` for zero padding to a minimum width, and the
 * parsers that read such text back.
 */
module Numerals {
  import opened Wrappers

  predicate IsDigit(c: char)
  {
    '0' <= c <= '9'
  }

  predicate AllDigits(s: string)
  {
    forall i :: 0 <= i < |s| ==> IsDigit(s[i])
  }

  function DigitChar(d: nat): (c: char)
    requires d < 10
    ensures IsDigit(c)
  {
    (48 + d) as char
  }

  function DigitValue(c: char): (d: nat)
    requires IsDigit(c)
    ensures d < 10
  {
    c as int - 48
  }

  /** `{}` of an unsigned integer: at least one digit and no leading zero. */
  function Decimal(n: nat): (s: string)
    ensures |s| >= 1 && AllDigits(s)
    ensures s[0] == '0' ==> n == 0
    decreases n
  {
    if n < 10 then [DigitChar(n)] else Decimal(n / 10) + [DigitChar(n % 10)]
  }

  /** The number a string of digits denotes. */
  function DigitsValue(s: string): nat
    requires AllDigits(s)
    decreases |s|
  {
    if |s| == 0 then 0 else 10 * DigitsValue(s[..|s| - 1]) + DigitValue(s[|s| - 1])
  }

  /** Reads a non-empty run of digits; anything else is refused. */
  function ParseDecimal(s: string): (r: Option<nat>)
    ensures r.Some? <==> |s| >= 1 && AllDigits(s)
  {
    if |s| >= 1 && AllDigits(s) then Some(DigitsValue(s)) else None
  }

  lemma {:induction false} DecimalValue(n: nat)
    ensures DigitsValue(Decimal(n)) == n
    decreases n
  {
    if n >= 10 {
      DecimalValue(n / 10);
      var s := Decimal(n);
      assert s[..|s| - 1] == Decimal(n / 10);
    }
  }

  /** Reading back the text of `n` gives `n`. */
  lemma ParseDecimalRoundTrip(n: nat)
    ensures ParseDecimal(Decimal(n)) == Some(n)
  {
    DecimalValue(n);
  }

  /** `k` zero digits. */
  function Zeros(k: nat): (s: string)
    ensures |s| == k && AllDigits(s)
    ensures forall i :: 0 <= i < k ==> s[i] == '0'
  {
    seq(k, _ => '0')
  }

  /**
   * `{:0w}` of an unsigned integer: the text of `n` with zeros in front up to
   * `width` characters; a wider number is written in full, never cut.
   */
  function ZeroPad(n: nat, width: nat): string
  {
    var d := Decimal(n);
    if |d| < width then Zeros(width - |d|) + d else d
  }

  /** The padded text is all digits, at least `width` long, and ends with the number in full. */
  lemma ZeroPadShape(n: nat, width: nat)
    ensures var s := ZeroPad(n, width);
      AllDigits(s)
      && |s| >= width && |s| >= |Decimal(n)|
      && (|s| > width ==> s == Decimal(n))
      && s[|s| - |Decimal(n)|..] == Decimal(n)
  {
    var d := Decimal(n);
    if |d| < width {
      var s := Zeros(width - |d|) + d;
      assert s[|s| - |d|..] == d;
    }
  }

  /** Leading zeros do not change the value of a run of digits. */
  lemma {:induction false} LeadingZerosValue(k: nat, s: string)
    requires AllDigits(s)
    ensures AllDigits(Zeros(k) + s)
    ensures DigitsValue(Zeros(k) + s) == DigitsValue(s)
    decreases |s|
  {
    var z := Zeros(k) + s;
    if |s| == 0 {
      assert z == Zeros(k);
      ZerosValue(k);
    } else {
      LeadingZerosValue(k, s[..|s| - 1]);
      assert z[..|z| - 1] == Zeros(k) + s[..|s| - 1];
    }
  }

  lemma {:induction false} ZerosValue(k: nat)
    ensures DigitsValue(Zeros(k)) == 0
  {
    if k > 0 {
      ZerosValue(k - 1);
      assert Zeros(k)[..k - 1] == Zeros(k - 1);
    }
  }

  /** Zero padding keeps the value: the padded text reads back as `n`. */
  lemma ZeroPadRoundTrip(n: nat, width: nat)
    ensures ParseDecimal(ZeroPad(n, width)) == Some(n)
  {
    var d := Decimal(n);
    DecimalValue(n);
    if |d| < width {
      LeadingZerosValue(width - |d|, d);
    }
  }

  /** `{}` of a signed integer: a minus sign before the digits of a negative value. */
  function IntText(v: int): (s: string)
    ensures |s| >= 1
    ensures s[0] == '-' <==> v < 0
  {
    if v < 0 then "-" + Decimal(-v) else Decimal(v)
  }

  /** Reads an optional minus sign followed by digits. */
  function ParseInt(s: string): Option<int>
  {
    if |s| >= 1 && s[0] == '-' then
      match ParseDecimal(s[1..])
      case None => None
      case Some(n) => Some(-(n as int))
    else
      match ParseDecimal(s)
      case None => None
      case Some(n) => Some(n)
  }

  /** Reading back the text of `v` gives `v`. */
  lemma IntTextRoundTrip(v: int)
    ensures ParseInt(IntText(v)) == Some(v)
  {
    if v < 0 {
      ParseDecimalRoundTrip(-v);
      assert IntText(v)[1..] == Decimal(-v);
    } else {
      ParseDecimalRoundTrip(v);
    }
  }
}
