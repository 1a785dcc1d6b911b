/** Decimal text of numbers, as the client writes and reads it back:
    `n.toString()` for integers, `parseInt(text)` and `Number(text)` for the
    plain decimal forms. */
module Numerals {
  import opened Wrappers

  predicate IsDigit(c: char) {
    '0' <= c <= '9'
  }

  predicate AllDigits(s: string) {
    forall i :: 0 <= i < |s| ==> IsDigit(s[i])
  }

  function DigitChar(d: nat): (c: char)
    requires d < 10
    ensures IsDigit(c)
  {
    ('0' as int + d) as char
  }

  function DigitValue(c: char): (d: nat)
    requires IsDigit(c)
    ensures d < 10
  {
    c as int - '0' as int
  }

  /** The value of a digit string read left to right (most significant first). */
  function DigitsValue(s: string): nat
    requires AllDigits(s)
  {
    if s == [] then 0 else DigitsValue(s[..|s| - 1]) * 10 + DigitValue(s[|s| - 1])
  }

  function Pow10(k: nat): (p: nat)
    ensures p >= 1
  {
    if k == 0 then 1 else 10 * Pow10(k - 1)
  }

  /** `n.toString()` for a non-negative integer. */
  function NatToString(n: nat): (s: string)
    ensures |s| >= 1 && AllDigits(s)
    ensures s[0] == '0' ==> n == 0 && |s| == 1
  {
    if n < 10 then [DigitChar(n)] else NatToString(n / 10) + [DigitChar(n % 10)]
  }

  /** `n.toString()` for any integer: a minus sign, then the digits of |n|. */
  function IntToString(n: int): (s: string)
    ensures |s| >= 1
    ensures n >= 0 <==> IsDigit(s[0])
  {
    if n < 0 then "-" + NatToString(-n) else NatToString(n)
  }

  /** The longest prefix of `s` made of digits. */
  function LeadingDigits(s: string): (d: string)
    ensures |d| <= |s| && d == s[..|d|] && AllDigits(d)
    ensures |d| < |s| ==> !IsDigit(s[|d|])
  {
    if s == [] || !IsDigit(s[0]) then [] else [s[0]] + LeadingDigits(s[1..])
  }

  /** JavaScript's `parseInt(s)` on decimal text: an optional sign, then the longest
      run of digits; `None` (NaN) when there is no digit. */
  function ParseInt(s: string): (r: Option<int>)
    ensures r.Some? <==> (|s| >= 1 && IsDigit(s[0])) ||
                         (|s| >= 2 && (s[0] == '-' || s[0] == '+') && IsDigit(s[1]))
  {
    if |s| >= 1 && (s[0] == '-' || s[0] == '+') then
      var d := LeadingDigits(s[1..]);
      if d == [] then None
      else Some(if s[0] == '-' then -(DigitsValue(d) as int) else DigitsValue(d))
    else
      var d := LeadingDigits(s);
      if d == [] then None else Some(DigitsValue(d))
  }

  lemma {:induction false} NatToStringValue(n: nat)
    ensures DigitsValue(NatToString(n)) == n
  {
    var s := NatToString(n);
    if n >= 10 {
      NatToStringValue(n / 10);
      assert s[..|s| - 1] == NatToString(n / 10);
    }
  }

  lemma {:induction false} LeadingDigitsOfDigits(s: string)
    requires AllDigits(s)
    ensures LeadingDigits(s) == s
  {
    if s != [] {
      LeadingDigitsOfDigits(s[1..]);
    }
  }

  /** Reading back what `toString` wrote gives the integer again. */
  lemma ParseIntToString(n: int)
    ensures ParseInt(IntToString(n)) == Some(n)
  {
    var u := NatToString(if n < 0 then -n else n);
    NatToStringValue(if n < 0 then -n else n);
    LeadingDigitsOfDigits(u);
    if n < 0 {
      assert IntToString(n)[1..] == u;
    }
  }

  /** Distinct integers have distinct decimal text. */
  lemma IntToStringInjective(m: int, n: int)
    requires IntToString(m) == IntToString(n)
    ensures m == n
  {
    ParseIntToString(m);
    ParseIntToString(n);
  }

  /** Position of the first `c` in `s`, or |s| when there is none. */
  function IndexOf(s: string, c: char): (k: nat)
    ensures k <= |s|
    ensures forall i :: 0 <= i < k ==> s[i] != c
    ensures k < |s| ==> s[k] == c
  {
    if s == [] then 0 else if s[0] == c then 0 else 1 + IndexOf(s[1..], c)
  }

  /** An unsigned decimal numeral `digits[.digits]` with at least one digit. */
  function UnsignedDecimal(s: string): Option<real> {
    var k := IndexOf(s, '.');
    var whole := s[..k];
    var frac := if k < |s| then s[k + 1..] else "";
    if AllDigits(whole) && AllDigits(frac) && |whole| + |frac| >= 1 then
      Some(DigitsValue(whole) as real + DigitsValue(frac) as real / Pow10(|frac|) as real)
    else None
  }

  /** JavaScript's `Number(s)` on text: the empty text is 0, a decimal numeral with an
      optional sign is its value, anything else is NaN (`None`). */
  function DecimalNumber(s: string): (r: Option<real>)
    ensures s == "" ==> r == Some(0.0)
  {
    if s == "" then Some(0.0)
    else if s[0] == '-' then
      match UnsignedDecimal(s[1..])
      case Some(v) => Some(-v)
      case None => None
    else if s[0] == '+' then UnsignedDecimal(s[1..])
    else UnsignedDecimal(s)
  }

  /** The text `toString` gives a number: an integer part without leading zeros, and a
      fraction without trailing zeros; negative values carry a minus sign. */
  predicate CanonicalUnsigned(s: string) {
    var k := IndexOf(s, '.');
    var whole := s[..k];
    && |whole| >= 1 && AllDigits(whole) && (whole[0] == '0' ==> |whole| == 1)
    && (k < |s| ==> var frac := s[k + 1..]; |frac| >= 1 && AllDigits(frac) && frac[|frac| - 1] != '0')
  }

  predicate CanonicalNumeral(s: string) {
    if |s| >= 1 && s[0] == '-' then CanonicalUnsigned(s[1..]) && s[1..] != "0"
    else CanonicalUnsigned(s)
  }

  /** A digit string without leading zeros is a canonical numeral denoting its value. */
  lemma DigitsNumeral(u: string)
    requires |u| >= 1 && AllDigits(u) && (u[0] == '0' ==> |u| == 1)
    ensures CanonicalUnsigned(u)
    ensures UnsignedDecimal(u) == Some(DigitsValue(u) as real)
  {
    NoDotInDigits(u);
    assert u[..|u|] == u;
    assert DigitsValue("") == 0 && Pow10(0) == 1;
    assert 0 as real / 1 as real == 0.0;
  }

  /** A digit string holds no decimal point. */
  lemma NoDotInDigits(u: string)
    requires AllDigits(u)
    ensures IndexOf(u, '.') == |u|
  {
  }

  /** The text of an integer is a canonical numeral denoting that integer. */
  lemma IntToStringNumeral(n: int)
    ensures CanonicalNumeral(IntToString(n))
    ensures DecimalNumber(IntToString(n)) == Some(n as real)
  {
    var m: nat := if n < 0 then -n else n;
    var u := NatToString(m);
    NatToStringValue(m);
    DigitsNumeral(u);
    if n < 0 {
      assert IntToString(n)[1..] == u;
      assert u[0] != '0';
    } else {
      assert IntToString(n) == u;
      assert IsDigit(u[0]);
    }
  }
}
