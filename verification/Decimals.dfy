/** Decimal digits: the numbers they write, powers of ten and the shortest text of a number. */
module Decimals {
  predicate IsDigit(c: char) {
    '0' <= c <= '9'
  }

  predicate AllDigits(s: string) {
    forall i | 0 <= i < |s| :: IsDigit(s[i])
  }

  function DigitValue(c: char): (d: nat)
    requires IsDigit(c)
    ensures d <= 9
  {
    c as int - '0' as int
  }

  function Natural(s: string): nat
    requires AllDigits(s)
  {
    if s == [] then 0 else 10 * Natural(s[..|s| - 1]) + DigitValue(s[|s| - 1])
  }

  function Power(n: nat): (p: int)
    ensures p >= 1
  {
    if n == 0 then 1 else 10 * Power(n - 1)
  }

  lemma {:induction false} PowerAdds(a: nat, b: nat)
    ensures Power(a + b) == Power(a) * Power(b)
  {
    if b > 0 {
      PowerAdds(a, b - 1);
      assert Power(a) * (10 * Power(b - 1)) == 10 * (Power(a) * Power(b - 1));
    }
  }

  lemma {:induction false} PowerGrows(a: nat, b: nat)
    requires a <= b
    ensures Power(a) <= Power(b)
  {
    if a < b {
      PowerGrows(a, b - 1);
    }
  }

  /** One more digit behind both numbers. */
  lemma ConcatStep(a: int, p: int, b: int, c: int, p': int, b': int)
    requires p' == 10 * p && b' == 10 * b + c
    ensures 10 * (a * p + b) + c == a * p' + b'
  {
    assert a * (10 * p) == 10 * (a * p);
  }

  lemma {:induction false} NaturalOfConcat(a: string, b: string)
    requires AllDigits(a) && AllDigits(b)
    ensures AllDigits(a + b) && Natural(a + b) == Natural(a) * Power(|b|) + Natural(b)
  {
    if b == [] {
      assert a + b == a;
    } else {
      var n := |b| - 1;
      NaturalOfConcat(a, b[..n]);
      assert (a + b)[..|a| + n] == a + b[..n] && (a + b)[|a| + n] == b[n];
      ConcatStep(Natural(a), Power(n), Natural(b[..n]), DigitValue(b[n]), Power(n + 1), Natural(b));
    }
  }

  /** The decimal text of a number, without leading zeros. */
  function ToText(n: nat): (s: string)
    ensures s != "" && AllDigits(s) && Natural(s) == n
  {
    var last := ('0' as int + n % 10) as char;
    if n < 10 then
      assert [last][..0] == "";
      [last]
    else
      var front := ToText(n / 10);
      assert (front + [last])[..|front|] == front;
      front + [last]
  }
}
