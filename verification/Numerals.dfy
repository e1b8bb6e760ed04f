/**
 Decimal numerals, as Python's `%s` and `%d` print naturals and its parser reads them.
 */
module Numerals {

  predicate IsDigit(c: char) {
    '0' <= c <= '9'
  }

  function Digit(n: nat): (c: char)
    requires n < 10
    ensures IsDigit(c)
  {
    "0123456789"[n]
  }

  function Decimal(n: nat): (s: string)
    ensures s != [] && forall i | 0 <= i < |s| :: IsDigit(s[i])
  {
    if n < 10 then [Digit(n)] else Decimal(n / 10) + [Digit(n % 10)]
  }

  predicate AllDigits(s: string) {
    forall i | 0 <= i < |s| :: IsDigit(s[i])
  }

  /** Python reads a numeral that starts with another digit after `0` as octal. */
  predicate IsNumeral(s: string) {
    s != [] && AllDigits(s) && (|s| > 1 ==> s[0] != '0')
  }

  function Numeral(s: string): nat
    requires AllDigits(s)
  {
    if s == [] then 0
    else 10 * Numeral(s[..|s| - 1]) + (s[|s| - 1] as int - '0' as int)
  }

  lemma {:induction false} DecimalReads(n: nat)
    ensures IsNumeral(Decimal(n)) && Numeral(Decimal(n)) == n
    ensures n > 0 ==> Decimal(n)[0] != '0'
  {
    if n >= 10 {
      DecimalReads(n / 10);
      assert Decimal(n)[..|Decimal(n)| - 1] == Decimal(n / 10);
    } else {
      assert Decimal(n)[..0] == [];
    }
  }

  /** And every numeral is the one printed for its value. */
  lemma {:induction false} NumeralPrints(s: string)
    requires IsNumeral(s)
    ensures Decimal(Numeral(s)) == s
  {
    hide Digit, Decimal, Numeral;
    var k := |s| - 1;
    var front, d := s[..k], s[k] as int - '0' as int;
    DigitPrints(s[k]);
    LastDigit(s);
    assert s == front + [s[k]];
    if k == 0 {
      OneDigit(d);
    } else {
      assert front[0] == s[0];
      NumeralPrints(front);
      NotZero(front);
      OneDigitMore(Numeral(front), d);
    }
  }

  lemma LastDigit(s: string)
    requires s != [] && AllDigits(s)
    ensures Numeral(s) == 10 * Numeral(s[..|s| - 1]) + (s[|s| - 1] as int - '0' as int)
    ensures |s| == 1 ==> Numeral(s) == s[0] as int - '0' as int
  {}

  lemma OneDigit(d: nat)
    requires d < 10
    ensures Decimal(d) == [Digit(d)]
  {}

  lemma OneDigitMore(m: nat, d: nat)
    requires m > 0 && d < 10
    ensures Decimal(10 * m + d) == Decimal(m) + [Digit(d)]
  {
    hide Digit;
    var n := 10 * m + d;
    assert n / 10 == m && n % 10 == d;
  }

  lemma DigitPrints(c: char)
    requires IsDigit(c)
    ensures 0 <= c as int - '0' as int < 10 && Digit(c as int - '0' as int) == c
  {}

  lemma {:induction false} NotZero(s: string)
    requires s != [] && AllDigits(s) && s[0] != '0'
    ensures Numeral(s) > 0
  {
    if |s| > 1 { NotZero(s[..|s| - 1]); }
  }

  /** Digits put after a numeral multiply it by ten at least. */
  lemma {:induction false} MoreDigits(s: string, t: string)
    requires AllDigits(s) && AllDigits(t) && t != []
    ensures AllDigits(s + t) && Numeral(s + t) >= 10 * Numeral(s)
  {
    var k := |t| - 1;
    assert (s + t)[..|s + t| - 1] == s + t[..k];
    if k == 0 {
      assert s + t[..k] == s;
    } else {
      MoreDigits(s, t[..k]);
    }
  }
}
