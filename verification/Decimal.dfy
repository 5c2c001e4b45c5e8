/** Decimal text of integers, as every serialiser of the system prints them. */
module Decimal {
  import opened Wrappers
  import opened JsonText

  function Digits(n: nat): (t: string)
    ensures t != "" && forall i :: 0 <= i < |t| ==> '0' <= t[i] <= '9'
  {
    if n < 10 then [('0' as int + n) as char] else Digits(n / 10) + [('0' as int + n % 10) as char]
  }

  function DigitsValue(t: string): int {
    if t == "" then 0 else 10 * DigitsValue(Front(t)) + (Last(t) as int - '0' as int)
  }

  function IntText(n: int): (t: string)
    ensures NumberLiteral(t)
  {
    if n < 0 then "-" + Digits(-n) else Digits(n)
  }

  lemma {:induction false} DigitsValueInverts(n: nat)
    ensures DigitsValue(Digits(n)) == n
  {
    if n >= 10 {
      DigitsValueInverts(n / 10);
      assert Front(Digits(n)) == Digits(n / 10);
    } else {
      assert Front(Digits(n)) == "";
    }
  }

  lemma IntTextInjective(m: int, n: int)
    requires IntText(m) == IntText(n)
    ensures m == n
  {
    hide Digits, DigitsValue;
    assert m < 0 <==> IntText(m)[0] == '-';
    assert n < 0 <==> IntText(n)[0] == '-';
    if m < 0 {
      DigitsValueInverts(-m);
      DigitsValueInverts(-n);
      assert IntText(m)[1..] == Digits(-m) && IntText(n)[1..] == Digits(-n);
    } else {
      DigitsValueInverts(m);
      DigitsValueInverts(n);
    }
  }
}
