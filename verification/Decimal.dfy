/** Decimal numerals as printf and fmt write them and as atol, strtoul and JSON read them. */
module Decimal {

  predicate IsDigit(c: char) {
    '0' <= c <= '9'
  }

  predicate AllDigits(s: string) {
    s != "" && forall c | c in s :: IsDigit(c)
  }

  function DigitValue(c: char): (d: nat)
    requires IsDigit(c)
    ensures d < 10
  {
    c as int - '0' as int
  }

  function DecimalValue(s: string): nat
    requires forall c | c in s :: IsDigit(c)
  {
    if s == "" then 0
    else
      assert IsDigit(s[|s| - 1]);
      10 * DecimalValue(s[..|s| - 1]) + DigitValue(s[|s| - 1])
  }

  function Digit(d: nat): (c: char)
    requires d < 10
    ensures IsDigit(c) && DigitValue(c) == d
  {
    ('0' as int + d) as char
  }

  /** The numeral of `n`, without leading zeros. */
  function Digits(n: nat): (s: string)
    ensures AllDigits(s)
    ensures n > 0 ==> s[0] != '0'
    ensures n == 0 ==> s == "0"
  {
    if n < 10 then [Digit(n)] else Digits(n / 10) + [Digit(n % 10)]
  }

  lemma {:induction false} DigitsValue(n: nat)
    ensures DecimalValue(Digits(n)) == n
  {
    if n < 10 {
      assert Digits(n)[..0] == "";
    } else {
      DigitsValue(n / 10);
      assert Digits(n)[..|Digits(n)| - 1] == Digits(n / 10);
    }
  }

  function Dec(n: int): (s: string)
    ensures s != "" && forall c | c in s :: IsDigit(c) || c == '-'
  {
    if n < 0 then "-" + Digits(-n) else Digits(n)
  }

  function Pow10(k: nat): nat {
    if k == 0 then 1 else 10 * Pow10(k - 1)
  }

  lemma {:induction false} DigitsLength(n: nat, k: nat)
    requires k > 0 && n < Pow10(k)
    ensures |Digits(n)| <= k
  {
    if n >= 10 {
      assert k > 1;
      DigitsLength(n / 10, k - 1);
    }
  }

  /** Lengths of the printed C types. */
  lemma DecLengths(n: int)
    ensures -0x8000_0000 <= n < 0x1_0000_0000 ==> |Dec(n)| <= 11
    ensures -0x8000_0000_0000_0000 <= n < 0x1_0000_0000_0000_0000 ==> |Dec(n)| <= 20
    ensures 0 <= n < 10000 ==> |Dec(n)| <= 4
  {
    assert Pow10(4) == 10000;
    assert Pow10(8) == 10000 * Pow10(4);
    assert Pow10(10) == 100 * Pow10(8);
    assert Pow10(12) == 10000 * Pow10(8);
    assert Pow10(16) == 10000 * Pow10(12);
    assert Pow10(19) == 1000 * Pow10(16);
    assert Pow10(20) == 10000 * Pow10(16);
    var a := if n < 0 then -n else n;
    if a < 10000 { DigitsLength(a, 4); }
    if a < 0x1_0000_0000 { DigitsLength(a, 10); }
    if a <= 0x8000_0000_0000_0000 { DigitsLength(a, 19); }
    if a < 0x1_0000_0000_0000_0000 { DigitsLength(a, 20); }
  }

  // ---- Reading a numeral off the front of a text ----

  /** How many digits the text starts with. */
  function DigitRun(s: string): (k: nat)
    ensures k <= |s|
    ensures forall c | c in s[..k] :: IsDigit(c)
    ensures k < |s| ==> !IsDigit(s[k])
  {
    if s == "" || !IsDigit(s[0]) then 0 else 1 + DigitRun(s[1..])
  }

  lemma {:induction false} DigitRunOf(digits: string, rest: string)
    requires forall c | c in digits :: IsDigit(c)
    requires rest == "" || !IsDigit(rest[0])
    ensures DigitRun(digits + rest) == |digits|
    ensures (digits + rest)[..|digits|] == digits
  {
    if digits == "" {
      assert digits + rest == rest;
    } else {
      assert digits[0] in digits;
      assert (digits + rest)[1..] == digits[1..] + rest;
      DigitRunOf(digits[1..], rest);
    }
  }
}
