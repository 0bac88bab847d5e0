/**
  Decimal text of Swift's 64-bit `Int`: the string interpolation `"\(n)"`
  and the failable initializer `Int(_: String)`.
*/
module Numerals {
  import opened Wrappers

  const INT64_MIN: int := -0x8000_0000_0000_0000
  const INT64_MAX: int := 0x7FFF_FFFF_FFFF_FFFF

  /** Values representable by Swift's `Int` on a 64-bit platform. */
  predicate IsInt64(n: int) {
    INT64_MIN <= n <= INT64_MAX
  }

  predicate IsDigit(c: char) {
    '0' <= c <= '9'
  }

  predicate AllDigits(s: string) {
    forall i :: 0 <= i < |s| ==> IsDigit(s[i])
  }

  function DigitValue(c: char): (d: nat)
    requires IsDigit(c)
    ensures d < 10
  {
    (c as int) - ('0' as int)
  }

  function DigitChar(d: nat): (c: char)
    requires d < 10
    ensures IsDigit(c) && DigitValue(c) == d
  {
    ('0' as int + d) as char
  }

  /** The decimal digits of `n`, most significant first, without leading zeros. */
  function NatText(n: nat): (s: string)
    ensures |s| > 0 && AllDigits(s)
    ensures |s| > 1 ==> s[0] != '0'
  {
    if n < 10 then [DigitChar(n)] else NatText(n / 10) + [DigitChar(n % 10)]
  }

  /** The text of `"\(n)"` for an `Int` n: a minus sign for negative numbers, then the digits. */
  function IntText(n: int): (s: string)
    ensures IsIntegerText(s) && s[0] != '+'
    ensures s[0] == '-' <==> n < 0
    ensures |Magnitude(s)| > 1 ==> Magnitude(s)[0] != '0'
  {
    if n < 0 then "-" + NatText(-n) else NatText(n)
  }

  /** The number a non-empty run of decimal digits denotes (leading zeros allowed). */
  function DigitsValue(s: string): nat
    requires AllDigits(s)
  {
    if s == [] then 0 else DigitsValue(s[..|s| - 1]) * 10 + DigitValue(s[|s| - 1])
  }

  predicate HasSign(s: string) {
    |s| > 0 && (s[0] == '+' || s[0] == '-')
  }

  /** The text after an optional leading sign. */
  function Magnitude(s: string): string {
    if HasSign(s) then s[1..] else s
  }

  /** An optional `+` or `-`, then one or more ASCII digits and nothing else. */
  predicate IsIntegerText(s: string) {
    Magnitude(s) != [] && AllDigits(Magnitude(s))
  }

  /** The integer such a text denotes: its digits' value, negated after a `-`. */
  function TextValue(s: string): int
    requires IsIntegerText(s)
  {
    if HasSign(s) && s[0] == '-' then 0 - (DigitsValue(Magnitude(s)) as int) else DigitsValue(Magnitude(s))
  }

  /**
    `Int(s)`: succeeds exactly on an integer text whose value is a 64-bit
    integer, and then gives that value; `None` for any other text.
  */
  function ParseInt(s: string): (r: Option<int>)
    ensures r.Some? <==> IsIntegerText(s) && IsInt64(TextValue(s))
    ensures r.Some? ==> r.value == TextValue(s)
  {
    if |s| > 0 && (s[0] == '+' || s[0] == '-') then
      var digits := s[1..];
      if digits == [] || !AllDigits(digits) then None
      else
        var v: int := if s[0] == '-' then 0 - (DigitsValue(digits) as int) else DigitsValue(digits);
        if IsInt64(v) then Some(v) else None
    else if s == [] || !AllDigits(s) then None
    else if IsInt64(DigitsValue(s)) then Some(DigitsValue(s))
    else None
  }

  /** A leading zero does not change a run of digits' value. */
  lemma {:induction false} LeadingZeroIgnored(s: string)
    requires AllDigits(s)
    ensures AllDigits("0" + s) && DigitsValue("0" + s) == DigitsValue(s)
  {
    var t := "0" + s;
    assert t[0] == '0' && forall i :: 1 <= i < |t| ==> t[i] == s[i - 1];
    if s != [] {
      assert t[..|t| - 1] == "0" + s[..|s| - 1];
      LeadingZeroIgnored(s[..|s| - 1]);
    }
  }

  /** `Int` ignores leading zeros: `Int("0" + d) == Int(d)` for a run of digits `d`. */
  lemma ParseIntLeadingZero(digits: string)
    requires digits != [] && AllDigits(digits)
    ensures ParseInt("0" + digits) == ParseInt(digits)
  {
    LeadingZeroIgnored(digits);
    assert ("0" + digits)[0] == '0';
  }

  /** `Int` ignores a leading plus sign: `Int("+" + d) == Int(d)` for a run of digits `d`. */
  lemma ParseIntPlusSign(digits: string)
    requires digits != [] && AllDigits(digits)
    ensures ParseInt("+" + digits) == ParseInt(digits)
  {
    assert ("+" + digits)[1..] == digits;
  }

  /** `--port 08080` and `--port +8080` both give 8080. */
  lemma PortTextsWithPrefix()
    ensures ParseInt("08080") == Some(8080)
    ensures ParseInt("+8080") == Some(8080)
  {
    DigitsValueOfNatText(8080);
    assert NatText(8080) == "8080";
    ParseIntLeadingZero("8080");
    assert "0" + "8080" == "08080";
    ParseIntPlusSign("8080");
    assert "+" + "8080" == "+8080";
  }

  lemma {:induction false} DigitsValueOfNatText(n: nat)
    ensures DigitsValue(NatText(n)) == n
  {
    if n >= 10 {
      var prefix := NatText(n / 10);
      var s := prefix + [DigitChar(n % 10)];
      assert s[..|s| - 1] == prefix;
      DigitsValueOfNatText(n / 10);
    }
  }

  /** `Int("\(n)") == n` for every 64-bit `n`: the decimal text is read back exactly. */
  lemma ParseIntText(n: int)
    requires IsInt64(n)
    ensures ParseInt(IntText(n)) == Some(n)
  {
    if n < 0 {
      var s := "-" + NatText(-n);
      assert s[1..] == NatText(-n);
      DigitsValueOfNatText(-n);
    } else {
      DigitsValueOfNatText(n);
    }
  }

  /** Distinct integers have distinct decimal texts. */
  lemma IntTextInjective(m: int, n: int)
    requires IsInt64(m) && IsInt64(n)
    ensures IntText(m) == IntText(n) ==> m == n
  {
    ParseIntText(m);
    ParseIntText(n);
  }
}
