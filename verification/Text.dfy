/** Decimal text of integers, as strconv prints it, and the boundary of a token inside a longer text. */
module Text {

  predicate IsDigit(c: char) {
    '0' <= c <= '9'
  }

  predicate AllIn(s: string, inToken: char -> bool) {
    forall i :: 0 <= i < |s| ==> inToken(s[i])
  }

  function DigitChar(d: nat): (c: char)
    requires d < 10
    ensures IsDigit(c) && c as int == '0' as int + d
  {
    '0' + d as char
  }

  function Decimal(n: nat): (s: string)
    ensures |s| > 0 && AllIn(s, IsDigit)
  {
    if n < 10 then [DigitChar(n)] else Decimal(n / 10) + [DigitChar(n % 10)]
  }

  /** strconv.FormatInt(n, 10). */
  function FormatInt(n: int): string {
    if n < 0 then "-" + Decimal(-n) else Decimal(n)
  }

  lemma {:induction false} DecimalInjective(m: nat, n: nat)
    requires Decimal(m) == Decimal(n)
    ensures m == n
  {
    var s, t := Decimal(m), Decimal(n);
    assert s[|s| - 1] == t[|t| - 1];
    if m < 10 || n < 10 {
      assert |s| == 1;
      assert m < 10 && n < 10;
    } else {
      assert s[..|s| - 1] == Decimal(m / 10) && t[..|t| - 1] == Decimal(n / 10);
      DecimalInjective(m / 10, n / 10);
    }
  }

  lemma FormatIntInjective(m: int, n: int)
    requires FormatInt(m) == FormatInt(n)
    ensures m == n
  {
    assert Decimal(if m < 0 then -m else m)[0] != '-' && Decimal(if n < 0 then -n else n)[0] != '-';
    if m < 0 && n < 0 {
      assert FormatInt(m)[1..] == Decimal(-m) && FormatInt(n)[1..] == Decimal(-n);
      DecimalInjective(-m, -n);
    } else if m >= 0 && n >= 0 {
      DecimalInjective(m, n);
    }
  }

  /** A token made of characters of one class ends where the class ends. */
  lemma TokenBoundary(a: string, b: string, s: string, t: string, inToken: char -> bool)
    requires a + s == b + t
    requires AllIn(a, inToken) && AllIn(b, inToken)
    requires s == [] || !inToken(s[0])
    requires t == [] || !inToken(t[0])
    ensures a == b && s == t
  {
    var u := a + s;
    assert u == b + t;
    assert |a| < |u| ==> u[|a|] == s[0];
    assert |b| < |u| ==> u[|b|] == t[0];
    assert forall i :: 0 <= i < |a| ==> u[i] == a[i];
    assert forall i :: 0 <= i < |b| ==> u[i] == b[i];
    assert |a| == |b|;
    assert a == u[..|a|] == b;
    assert s == u[|a|..] == t;
  }
}
