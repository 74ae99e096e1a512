/**
 * The few .NET string operations that the renaming helper relies on:
 * `String.LastIndexOf(char)`, `int.TryParse` and `int.ToString()`.
 * Integers are unbounded here (see README, "Left out").
 */
module Text {
  import opened Nullable

  /** Index of the last occurrence of `ch` in `s`, or -1 when there is none. */
  function LastIndexOf(s: string, ch: char): (r: int)
    ensures -1 <= r < |s|
    ensures r >= 0 ==> s[r] == ch
    ensures forall k :: r < k < |s| ==> s[k] != ch
  {
    if s == [] then -1
    else if s[|s| - 1] == ch then |s| - 1
    else LastIndexOf(s[..|s| - 1], ch)
  }

  predicate IsDigit(c: char) {
    '0' <= c <= '9'
  }

  predicate AllDigits(s: string) {
    forall k :: 0 <= k < |s| ==> IsDigit(s[k])
  }

  function DigitValue(c: char): (d: nat)
    requires IsDigit(c)
    ensures d < 10
  {
    c as int - '0' as int
  }

  function DigitChar(d: nat): (c: char)
    requires d < 10
    ensures IsDigit(c) && DigitValue(c) == d
  {
    ('0' as int + d) as char
  }

  function Pow10(n: nat): (p: nat)
    ensures p >= 1
  {
    if n == 0 then 1 else 10 * Pow10(n - 1)
  }

  lemma {:induction false} Pow10Monotone(m: nat, n: nat)
    requires m <= n
    ensures Pow10(m) <= Pow10(n)
  {
    if m < n {
      Pow10Monotone(m, n - 1);
    }
  }

  /** The value of a string of decimal digits, most significant digit first. */
  function DigitsValue(s: string): nat
    requires AllDigits(s)
  {
    if s == [] then 0 else 10 * DigitsValue(s[..|s| - 1]) + DigitValue(s[|s| - 1])
  }

  lemma {:induction false} DigitsValueBound(s: string)
    requires AllDigits(s)
    ensures DigitsValue(s) < Pow10(|s|)
  {
    if s != [] {
      DigitsValueBound(s[..|s| - 1]);
    }
  }

  /**
   * `int.TryParse`: an optional leading '-' or '+' followed by one or more decimal digits.
   * A parsed value has fewer digits than the text, which bounds it.
   */
  function TryParseInt(s: string): (r: Option<int>)
    ensures r.Some? ==> -(Pow10(|s|) as int) < r.value < Pow10(|s|)
    ensures r.Some? ==> |s| > 0 && (AllDigits(s) || ((s[0] == '-' || s[0] == '+') && AllDigits(s[1..])))
  {
    if |s| > 1 && (s[0] == '-' || s[0] == '+') && AllDigits(s[1..]) then
      DigitsValueBound(s[1..]);
      Pow10Monotone(|s| - 1, |s|);
      var v: int := DigitsValue(s[1..]);
      Some(if s[0] == '-' then -v else v)
    else if |s| > 0 && AllDigits(s) then
      DigitsValueBound(s);
      Some(DigitsValue(s))
    else
      None
  }

  /** Decimal rendering of a natural number, without leading zeros. */
  function NatToString(n: nat): (r: string)
    ensures |r| > 0 && AllDigits(r)
  {
    if n < 10 then [DigitChar(n)] else NatToString(n / 10) + [DigitChar(n % 10)]
  }

  /** `int.ToString()`: a '-' before the digits of a negative number. */
  function IntToString(n: int): (r: string)
    ensures ' ' !in r
  {
    if n < 0 then "-" + NatToString(-n) else NatToString(n)
  }

  lemma {:induction false} NatToStringValue(n: nat)
    ensures DigitsValue(NatToString(n)) == n
  {
    if n >= 10 {
      NatToStringValue(n / 10);
      var r := NatToString(n);
      assert r[..|r| - 1] == NatToString(n / 10);
    }
  }

  /** Parsing what `IntToString` printed gives back the number: the round trip the renaming relies on. */
  lemma ParseIntToString(n: int)
    ensures TryParseInt(IntToString(n)) == Some(n)
  {
    var s := IntToString(n);
    if n < 0 {
      NatToStringValue(-n);
      assert s[1..] == NatToString(-n);
    } else {
      NatToStringValue(n);
      assert IsDigit(s[0]);
    }
  }
}
