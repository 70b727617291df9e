/** Decimal numerals: what `to_string` prints for a natural number, and what reading digits means.
    Handle numbers in scratch file names, candidate identifiers, ports and integer conversions all
    use these. */
module Decimal {

  predicate IsDigit(c: char) {
    '0' <= c <= '9'
  }

  predicate AllDigits(s: string) {
    forall c :: c in s ==> IsDigit(c)
  }

  function DigitOf(d: nat): (c: char)
    requires d < 10
    ensures IsDigit(c) && DigitValue(c) == d
  {
    ('0' as int + d) as char
  }

  function DigitValue(c: char): (d: nat)
    requires IsDigit(c)
    ensures d < 10
  {
    c as int - '0' as int
  }

  /** The numeral a printer writes: no leading zeros, one digit at least. */
  function Show(n: nat): string {
    if n < 10 then [DigitOf(n)] else Show(n / 10) + [DigitOf(n % 10)]
  }

  /** The number a run of digits stands for, whatever zeros it starts with. */
  function Value(s: string): nat
    requires AllDigits(s)
  {
    if s == [] then 0
    else Value(s[..|s| - 1]) * 10 + DigitValue(s[|s| - 1])
  }

  /** Printing and reading are inverse: this is what makes numerals usable as names. */
  lemma {:induction false} ShowThenRead(n: nat)
    ensures Show(n) != [] && AllDigits(Show(n)) && Value(Show(n)) == n
  {
    if n < 10 {
      assert Value([DigitOf(n)]) == Value([]) * 10 + n by {
        assert [DigitOf(n)][..0] == [];
      }
    } else {
      ShowThenRead(n / 10);
      var s := Show(n / 10) + [DigitOf(n % 10)];
      assert s[..|s| - 1] == Show(n / 10);
    }
  }

  lemma ShowInjective(m: nat, n: nat)
    requires Show(m) == Show(n)
    ensures m == n
  {
    ShowThenRead(m);
    ShowThenRead(n);
  }

  /** A numeral followed by a separator that is no digit determines both halves. */
  lemma {:induction false} NumeralPrefixUnique(a: string, b: string, sep: char, x: string, y: string)
    requires AllDigits(a) && AllDigits(b) && !IsDigit(sep)
    requires a + [sep] + x == b + [sep] + y
    ensures a == b && x == y
  {
    var left, right := a + [sep] + x, b + [sep] + y;
    assert left[|a|] == sep && right[|b|] == sep;
    assert forall i :: 0 <= i < |a| ==> IsDigit(left[i]);
    assert forall i :: 0 <= i < |b| ==> IsDigit(right[i]);
    assert |a| == |b|;
    assert a == left[..|a|] && b == right[..|b|];
    assert x == left[|a| + 1..] && y == right[|b| + 1..];
  }
}
