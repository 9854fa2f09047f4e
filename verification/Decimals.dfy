/** Numbers written in decimal. */
module Decimals {

  function Decimal(n: nat): (s: string)
    ensures s != "" && forall c :: c in s ==> '0' <= c <= '9'
  {
    if n < 10 then [('0' as int + n) as char] else Decimal(n / 10) + [('0' as int + n % 10) as char]
  }

  lemma {:induction false} DecimalInjective(a: nat, b: nat)
    requires Decimal(a) == Decimal(b)
    ensures a == b
  {
    DecimalShape(a);
    DecimalShape(b);
    if a >= 10 && b >= 10 {
      var x, y := Decimal(a / 10), Decimal(b / 10);
      assert Decimal(a)[..|Decimal(a)| - 1] == x && Decimal(b)[..|Decimal(b)| - 1] == y;
      DecimalInjective(a / 10, b / 10);
    }
  }

  lemma DecimalShape(n: nat)
    ensures |Decimal(n)| >= 1 && Decimal(n)[|Decimal(n)| - 1] as int == '0' as int + n % 10
    ensures |Decimal(n)| == 1 <==> n < 10
  {
  }

  /** The next number is as long, or one digit longer. */
  lemma {:induction false} NextIsNoShorter(n: nat)
    ensures |Decimal(n)| <= |Decimal(n + 1)| <= |Decimal(n)| + 1
  {
    if n >= 10 {
      NextIsNoShorter(n / 10);
      assert (n + 1) / 10 == n / 10 || (n + 1) / 10 == n / 10 + 1;
    }
  }
}
