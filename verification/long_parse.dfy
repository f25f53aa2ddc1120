/**
 * Kotlin's `String.toLongOrNull()` in base 10, used on the last path
 * segment of the URI the store returns for an inserted raw contact, and
 * `Long.toString()`, which is how that segment is written.
 */
module LongParse {
  import opened Wrappers

  const LongMin: int := -0x8000_0000_0000_0000
  const LongMax: int := 0x7fff_ffff_ffff_ffff

  predicate InLongRange(n: int)
  {
    LongMin <= n <= LongMax
  }

  predicate IsDigit(c: char)
  {
    '0' <= c <= '9'
  }

  predicate AllDigits(s: string)
  {
    forall i :: 0 <= i < |s| ==> IsDigit(s[i])
  }

  /** The number a run of decimal digits denotes (leading zeros allowed). */
  function DigitsValue(s: string): nat
    requires AllDigits(s)
  {
    if |s| == 0 then 0
    else DigitsValue(s[..|s| - 1]) * 10 + (s[|s| - 1] as int - '0' as int)
  }

  /**
   * `toLongOrNull()`: an optional `+` or `-`, then one or more digits,
   * whose value must fit a signed 64-bit Long; anything else is `None`.
   */
  function ParseLong(s: string): (r: Option<int>)
    ensures r.Some? ==> InLongRange(r.value)
    ensures r.Some? <==>
      || (|s| > 0 && AllDigits(s) && DigitsValue(s) <= LongMax)
      || (|s| > 1 && s[0] == '+' && AllDigits(s[1..]) && DigitsValue(s[1..]) <= LongMax)
      || (|s| > 1 && s[0] == '-' && AllDigits(s[1..]) && DigitsValue(s[1..]) <= -LongMin)
    ensures |s| > 0 && AllDigits(s) && DigitsValue(s) <= LongMax ==> r == Some(DigitsValue(s))
    ensures r.Some? && s[0] == '+' ==> r.value == DigitsValue(s[1..])
    ensures r.Some? && s[0] == '-' ==> r.value == -(DigitsValue(s[1..]) as int)
  {
    if |s| == 0 then None
    else if s[0] < '0' then
      if |s| == 1 then None
      else if s[0] == '-' then
        var digits := s[1..];
        if AllDigits(digits) && DigitsValue(digits) <= -LongMin then Some(0 - DigitsValue(digits) as int) else None
      else if s[0] == '+' then
        var digits := s[1..];
        if AllDigits(digits) && DigitsValue(digits) <= LongMax then Some(DigitsValue(digits)) else None
      else None
    else if AllDigits(s) && DigitsValue(s) <= LongMax then Some(DigitsValue(s))
    else None
  }

  function DigitChar(d: nat): (c: char)
    requires d < 10
    ensures IsDigit(c) && c as int - '0' as int == d
  {
    (d + '0' as int) as char
  }

  /** The decimal digits of `n`, with no leading zero. */
  function ShowNat(n: nat): (s: string)
    ensures |s| > 0 && AllDigits(s)
  {
    if n < 10 then [DigitChar(n)] else ShowNat(n / 10) + [DigitChar(n % 10)]
  }

  /** `Long.toString()`. */
  function ShowLong(n: int): string
  {
    if n < 0 then "-" + ShowNat(-n) else ShowNat(n)
  }

  lemma {:induction false} DigitsValueOfShowNat(n: nat)
    ensures DigitsValue(ShowNat(n)) == n
  {
    var s := ShowNat(n);
    if n >= 10 {
      DigitsValueOfShowNat(n / 10);
      assert s[..|s| - 1] == ShowNat(n / 10);
    }
  }

  /** Every 64-bit value written out by `Long.toString()` parses back to itself. */
  lemma ParseShowLong(n: int)
    requires InLongRange(n)
    ensures ParseLong(ShowLong(n)) == Some(n)
  {
    var s := ShowLong(n);
    if n < 0 {
      DigitsValueOfShowNat(-n);
      assert s[1..] == ShowNat(-n);
    } else {
      DigitsValueOfShowNat(n);
    }
  }
}
