/** Decimal numerals and the byte order on text used by sorted containers. */
module Text {

  function Digit(d: nat): char
    requires d < 10
  {
    ("0123456789")[d]
  }

  /** The decimal text of a natural number, as std::to_string writes it. */
  function Decimal(n: nat): (text: string)
    ensures |text| >= 1
    ensures forall i :: 0 <= i < |text| ==> '0' <= text[i] <= '9'
  {
    if n < 10 then [Digit(n)] else Decimal(n / 10) + [Digit(n % 10)]
  }

  lemma {:induction false} DecimalInjective(m: nat, n: nat)
    requires Decimal(m) == Decimal(n)
    ensures m == n
  {
    if m >= 10 && n >= 10 {
      var a, b := Decimal(m / 10), Decimal(n / 10);
      assert (a + [Digit(m % 10)])[|a|] == (b + [Digit(n % 10)])[|b|];
      assert a == (a + [Digit(m % 10)])[..|a|] == (b + [Digit(n % 10)])[..|b|] == b;
      DecimalInjective(m / 10, n / 10);
    }
  }

  predicate Digits(text: string) {
    forall i :: 0 <= i < |text| ==> '0' <= text[i] <= '9'
  }

  /** The number written in decimal digits, the most significant first. */
  function NumberOf(text: string): nat
    requires Digits(text)
  {
    if |text| == 0 then 0
    else NumberOf(text[..|text| - 1]) * 10 + (text[|text| - 1] as int - '0' as int)
  }

  /** The numeral of a number denotes it, and has no leading zeros. */
  lemma {:induction false} DecimalDenotes(n: nat)
    ensures NumberOf(Decimal(n)) == n && (|Decimal(n)| > 1 ==> Decimal(n)[0] != '0')
  {
    var text := Decimal(n);
    assert forall d: nat :: d < 10 ==> Digit(d) as int - '0' as int == d;
    if n < 10 {
      assert text[..0] == "";
    } else {
      DecimalDenotes(n / 10);
      assert text[..|text| - 1] == Decimal(n / 10);
    }
  }

  function IntegerText(i: int): (text: string)
    ensures |text| >= 1
    ensures forall k :: 0 <= k < |text| ==> text[k] == '-' || '0' <= text[k] <= '9'
  {
    if i < 0 then "-" + Decimal(-i) else Decimal(i)
  }

  lemma IntegerTextInjective(i: int, j: int)
    ensures IntegerText(i) == IntegerText(j) ==> i == j
  {
    if i < 0 && j < 0 {
      assert IntegerText(i)[1..] == Decimal(-i) && IntegerText(j)[1..] == Decimal(-j);
      if Decimal(-i) == Decimal(-j) { DecimalInjective(-i, -j); }
    } else if i >= 0 && j >= 0 {
      if Decimal(i) == Decimal(j) { DecimalInjective(i, j); }
    } else {
      assert (IntegerText(i)[0] == '-') != (IntegerText(j)[0] == '-');
    }
  }

  /** Lexicographic order, a proper prefix being smaller. */
  predicate Before(a: string, b: string) {
    |b| > 0 && (|a| == 0 || a[0] < b[0] || (a[0] == b[0] && Before(a[1..], b[1..])))
  }

  lemma BeforeTotal(a: string, b: string)
    ensures a == b || Before(a, b) || Before(b, a)
  {
    if |a| > 0 && |b| > 0 && a[0] == b[0] {
      BeforeTotal(a[1..], b[1..]);
      if a[1..] == b[1..] {
        assert a == [a[0]] + a[1..] == [b[0]] + b[1..] == b;
      }
    }
  }

  lemma BeforeTransitive(a: string, b: string, c: string)
    requires Before(a, b) && Before(b, c)
    ensures Before(a, c)
  {
    if |a| > 0 && a[0] == b[0] && b[0] == c[0] {
      BeforeTransitive(a[1..], b[1..], c[1..]);
    }
  }

  lemma BeforeIrreflexive(a: string)
    ensures !Before(a, a)
  {
  }
}
