/** Python's `int(s)` on the resolution token chosen by the user (`int(resolution)`). */
module Decimal {
  import opened Wrappers

  predicate IsDigit(c: char) {
    '0' <= c <= '9'
  }

  predicate AllDigits(s: string) {
    forall i | 0 <= i < |s| :: IsDigit(s[i])
  }

  /** The value of a string of decimal digits, read left to right. */
  function DigitsValue(s: string): nat
    requires AllDigits(s)
  {
    if s == [] then 0 else DigitsValue(s[..|s| - 1]) * 10 + (s[|s| - 1] as int - '0' as int)
  }

  /** `int(s)`: an optional sign followed by one or more decimal digits; `None` where `int` raises `ValueError`. */
  function ParseInt(s: string): (r: Option<int>)
    ensures r.Some? ==> s != [] && IsDigit(s[|s| - 1])
    ensures r.None? <==> !(AllDigits(s) && s != []) && !(|s| > 1 && s[0] in "+-" && AllDigits(s[1..]))
  {
    if s != [] && (s[0] == '+' || s[0] == '-') then
      if |s| > 1 && AllDigits(s[1..]) then
        Some(if s[0] == '-' then -(DigitsValue(s[1..]) as int) else DigitsValue(s[1..]))
      else None
    else if s != [] && AllDigits(s) then Some(DigitsValue(s))
    else None
  }

  function Digit(d: nat): (c: char)
    requires d < 10
    ensures IsDigit(c)
  {
    (d + '0' as int) as char
  }

  /** The decimal numeral of `n`, as Python's `str(n)` writes it. */
  function DecimalString(n: nat): (s: string)
    ensures s != [] && AllDigits(s)
  {
    if n < 10 then [Digit(n)] else DecimalString(n / 10) + [Digit(n % 10)]
  }

  lemma {:induction false} DigitsOfDecimal(n: nat)
    ensures DigitsValue(DecimalString(n)) == n
  {
    var s := DecimalString(n);
    if n >= 10 {
      assert s[..|s| - 1] == DecimalString(n / 10);
      DigitsOfDecimal(n / 10);
    }
  }

  /** `int(str(n)) == n`, also with an explicit sign. */
  lemma ParseDecimal(n: nat)
    ensures ParseInt(DecimalString(n)) == Some(n)
    ensures ParseInt("+" + DecimalString(n)) == Some(n)
    ensures ParseInt("-" + DecimalString(n)) == Some(-(n as int))
  {
    var s := DecimalString(n);
    DigitsOfDecimal(n);
    assert ("+" + s)[1..] == s;
    assert ("-" + s)[1..] == s;
  }

  /** The resolution tokens the service offers to the user parse back to their heights. */
  lemma ParseTierTokens()
    ensures ParseInt("360") == Some(360)
    ensures ParseInt("480") == Some(480)
    ensures ParseInt("720") == Some(720)
  {
    ParseDecimal(360);
    assert DecimalString(360) == "360";
    ParseDecimal(480);
    assert DecimalString(480) == "480";
    ParseDecimal(720);
    assert DecimalString(720) == "720";
  }
}
