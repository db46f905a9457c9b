/** Decimal numerals. */
module Decimal {
  import opened Bytes

  const DIGITS: string := "0123456789"

  function Show(n: nat): (s: string)
    ensures s != "" && forall i :: 0 <= i < |s| ==> s[i] in DIGITS
  {
    if n < 10 then [DIGITS[n]] else Show(n / 10) + [DIGITS[n % 10]]
  }

  function Digit(c: char): Option<nat> {
    if '0' <= c <= '9' then Some(c as nat - '0' as nat) else None
  }

  function Value(s: string): Option<nat> {
    if s == "" then Some(0)
    else match (Value(s[..|s| - 1]), Digit(s[|s| - 1]))
      case (Some(v), Some(d)) => Some(10 * v + d)
      case _ => None
  }

  lemma DigitOf(d: nat)
    requires d < 10
    ensures Digit(DIGITS[d]) == Some(d)
  {
    assert DIGITS[0] == '0' && DIGITS[1] == '1' && DIGITS[2] == '2' && DIGITS[3] == '3' && DIGITS[4] == '4';
    assert DIGITS[5] == '5' && DIGITS[6] == '6' && DIGITS[7] == '7' && DIGITS[8] == '8' && DIGITS[9] == '9';
  }

  lemma {:induction false} ShowValue(n: nat)
    ensures Value(Show(n)) == Some(n)
  {
    if n < 10 {
      DigitOf(n);
      assert Show(n)[..0] == "";
    } else {
      ShowValue(n / 10);
      DigitOf(n % 10);
      assert Show(n)[..|Show(n)| - 1] == Show(n / 10);
    }
  }

  lemma ShowInjective(m: nat, n: nat)
    requires Show(m) == Show(n)
    ensures m == n
  {
    ShowValue(m);
    ShowValue(n);
  }

  /** `u16::from_str`: an optional plus sign and a non-empty numeral below 65536. */
  function ParseU16(s: string): Option<nat> {
    var digits := if s != "" && s[0] == '+' then s[1..] else s;
    if digits == "" then None
    else match Value(digits)
      case Some(v) => if v < U16 then Some(v) else None
      case None => None
  }

  lemma NoSign(c: char)
    requires c in DIGITS
    ensures c != '+'
  {
  }

  lemma ParseShow(n: nat)
    requires n < U16
    ensures ParseU16(Show(n)) == Some(n)
  {
    ShowValue(n);
    NoSign(Show(n)[0]);
  }

  lemma {:induction false} ValueRejects(s: string, i: nat)
    requires i < |s| && Digit(s[i]).None?
    ensures Value(s).None?
  {
    if i < |s| - 1 {
      ValueRejects(s[..|s| - 1], i);
    }
  }
}
