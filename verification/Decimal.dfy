/** Decimal numerals as `str` writes them. */
module Decimal {

  function Digit(d: nat): (c: char)
    requires d < 10
    ensures '0' <= c <= '9'
  {
    '0' + d as char
  }

  predicate AllDigits(s: string) {
    forall i | 0 <= i < |s| :: '0' <= s[i] <= '9'
  }

  function Dec(n: nat): (s: string)
    ensures s != [] && AllDigits(s)
  {
    if n < 10 then [Digit(n)] else Dec(n / 10) + [Digit(n % 10)]
  }

  function Parse(s: string): nat
    requires AllDigits(s)
  {
    if s == [] then 0 else 10 * Parse(s[..|s| - 1]) + (s[|s| - 1] as int - '0' as int)
  }

  lemma {:induction false} ParseDec(n: nat)
    ensures Parse(Dec(n)) == n
  {
    if n >= 10 {
      ParseDec(n / 10);
      assert Dec(n)[..|Dec(n)| - 1] == Dec(n / 10);
    } else {
      assert Parse(Dec(n)[..0]) == 0;
    }
  }

  lemma DecInjective(a: nat, b: nat)
    ensures Dec(a) == Dec(b) ==> a == b
  {
    ParseDec(a);
    ParseDec(b);
  }
}
