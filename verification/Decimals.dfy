/** Decimal numerals, as Python's f-strings write them. */
module Decimals {

  predicate IsDigit(c: char) { '0' <= c <= '9' }

  function Digit(n: nat): (c: char)
    requires n < 10
    ensures IsDigit(c)
  {
    '0' + n as char
  }

  function Decimal(n: nat): (s: string)
    ensures s != "" && forall i :: 0 <= i < |s| ==> IsDigit(s[i])
  {
    if n < 10 then [Digit(n)] else Decimal(n / 10) + [Digit(n % 10)]
  }

  lemma {:induction false} DecimalIsInjective(m: nat, n: nat)
    ensures Decimal(m) == Decimal(n) ==> m == n
    decreases m + n
  {
    var s, t := Decimal(m), Decimal(n);
    if s == t {
      assert Digit(m % 10) == s[|s| - 1] == t[|t| - 1] == Digit(n % 10);
      assert m % 10 == n % 10;
      if m >= 10 && n >= 10 {
        assert Decimal(m / 10) == s[..|s| - 1] == t[..|t| - 1] == Decimal(n / 10);
        DecimalIsInjective(m / 10, n / 10);
      }
    }
  }

  /** Numbers are written in base ten, without leading zeros. */
  lemma DecimalsAreSpelled(n: nat)
    ensures n < 10 ==> Decimal(n) == [['0', '1', '2', '3', '4', '5', '6', '7', '8', '9'][n]]
    ensures n >= 10 ==> Decimal(n) == Decimal(n / 10) + Decimal(n % 10)
  {
  }
}
