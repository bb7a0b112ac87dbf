/**
 * Decimal text of the view model's integer channel fields: `int.ToString()`
 * and `int.TryParse(string, out int)` on the invariant-culture digits '0'..'9'.
 */
module DecimalText {
  import opened Wrappers

  /** C#'s `int`. */
  type Int32 = x: int | -0x8000_0000 <= x <= 0x7FFF_FFFF

  predicate IsDigit(c: char) {
    '0' <= c <= '9'
  }

  predicate AllDigits(s: string) {
    forall i :: 0 <= i < |s| ==> IsDigit(s[i])
  }

  function DigitChar(d: nat): (c: char)
    requires d < 10
    ensures IsDigit(c)
  {
    ('0' as int + d) as char
  }

  /** The value of a string of decimal digits, most significant first. */
  function DigitsValue(s: string): nat
    requires AllDigits(s)
  {
    if |s| == 0 then 0
    else DigitsValue(s[..|s| - 1]) * 10 + (s[|s| - 1] as int - '0' as int)
  }

  /** The shortest decimal digits of `n`. */
  function Digits(n: nat): (s: string)
    ensures |s| > 0 && AllDigits(s)
    ensures |s| > 1 ==> s[0] != '0'
  {
    if n < 10 then [DigitChar(n)] else Digits(n / 10) + [DigitChar(n % 10)]
  }

  /** `n.ToString()`: a '-' sign for negative values, then the digits. */
  function DecimalString(n: int): (s: string)
    ensures |s| > 0
    ensures n < 0 <==> s[0] == '-'
  {
    if n < 0 then "-" + Digits(-n) else Digits(n)
  }

  /**
   * `int.TryParse`: an optional sign, then one or more digits whose value fits
   * an `int`; anything else fails.
   */
  function ParseInt(s: string): (r: Option<Int32>)
    ensures |s| == 0 ==> r == None
    ensures AllDigits(s) && |s| > 0 && DigitsValue(s) <= 0x7FFF_FFFF ==> r == Some(DigitsValue(s))
  {
    var negative := |s| > 0 && s[0] == '-';
    var body := if |s| > 0 && (s[0] == '-' || s[0] == '+') then s[1..] else s;
    if |body| == 0 || !AllDigits(body) then None
    else
      var magnitude: int := DigitsValue(body);
      var v := if negative then -magnitude else magnitude;
      if -0x8000_0000 <= v <= 0x7FFF_FFFF then Some(v) else None
  }

  /** The digits of `n` read back as `n`. */
  lemma {:induction false} DigitsRoundTrip(n: nat)
    ensures DigitsValue(Digits(n)) == n
  {
    if n >= 10 {
      DigitsRoundTrip(n / 10);
      var s := Digits(n);
      assert s[..|s| - 1] == Digits(n / 10);
    }
  }

  /** `int.TryParse(n.ToString())` succeeds and gives `n` back. */
  lemma {:induction false} DecimalRoundTrip(n: Int32)
    ensures ParseInt(DecimalString(n)) == Some(n)
  {
    if n < 0 {
      var m: nat := -(n as int);
      DigitsRoundTrip(m);
      assert DecimalString(n)[1..] == Digits(m);
    } else {
      DigitsRoundTrip(n);
    }
  }

  /** Text that is not a signed run of digits is rejected. */
  lemma ParseIntRejectsNonDigit(s: string, i: nat)
    requires i < |s| && !IsDigit(s[i])
    requires i == 0 ==> s[0] != '-' && s[0] != '+'
    ensures ParseInt(s) == None
  {
    if i > 0 && (s[0] == '-' || s[0] == '+') {
      assert s[1..][i - 1] == s[i];
    }
  }

  /** A sign with no digits after it is rejected. */
  lemma ParseIntRejectsBareSign(s: string)
    requires s == "-" || s == "+"
    ensures ParseInt(s) == None
  {
  }
}
