/** Decimal numerals. */
module Decimal {

  predicate IsDigit(c: char) { '0' <= c <= '9' }

  function Digit(n: nat): (c: char)
    requires n < 10
    ensures IsDigit(c)
  {
    "0123456789"[n]
  }

  function Value(c: char): nat
    requires IsDigit(c)
  {
    c as int - '0' as int
  }

  predicate AllDigits(s: string) { forall i :: 0 <= i < |s| ==> IsDigit(s[i]) }

  predicate Numeral(s: string) { s != "" && AllDigits(s) }

  function Print(n: nat): (s: string)
    ensures s != "" && AllDigits(s)
  {
    if n < 10 then [Digit(n)] else Print(n / 10) + [Digit(n % 10)]
  }

  function Parse(s: string): nat
    requires AllDigits(s)
  {
    if s == "" then 0 else 10 * Parse(s[..|s| - 1]) + Value(s[|s| - 1])
  }

  /** A numeral that does not start with zero is positive. */
  lemma {:induction false} LeadingDigit(s: string)
    requires s != "" && AllDigits(s) && s[0] != '0'
    ensures Parse(s) >= 1
  {
    if |s| > 1 {
      LeadingDigit(s[..|s| - 1]);
    }
  }

  lemma {:induction false} PrintThenParse(n: nat)
    ensures Parse(Print(n)) == n
  {
    assert Value(Digit(n % 10)) == n % 10;
    if n >= 10 {
      PrintThenParse(n / 10);
      assert Print(n)[..|Print(n)| - 1] == Print(n / 10);
    } else {
      assert Print(n)[..0] == "";
    }
  }

  function Zeros(n: nat): (s: string)
    ensures |s| == n && forall i :: 0 <= i < n ==> s[i] == '0'
  {
    seq(n, i => '0')
  }

  /** At least `width` digits, filled up with zeros on the left. */
  function PrintPadded(n: nat, width: nat): (s: string)
    ensures s != "" && AllDigits(s)
  {
    var s := Print(n);
    if |s| >= width then s else Zeros(width - |s|) + s
  }

  lemma {:induction false} ParseZeros(n: nat, s: string)
    requires AllDigits(s)
    ensures Parse(Zeros(n) + s) == Parse(s)
  {
    if s == "" {
      assert Zeros(n) + s == Zeros(n);
      if n > 0 {
        ParseZeros(n - 1, "");
        assert Zeros(n)[..n - 1] == Zeros(n - 1) == Zeros(n - 1) + "";
      }
    } else {
      var t := Zeros(n) + s;
      ParseZeros(n, s[..|s| - 1]);
      assert t[..|t| - 1] == Zeros(n) + s[..|s| - 1];
    }
  }

  lemma PaddedThenParse(n: nat, width: nat)
    ensures Parse(PrintPadded(n, width)) == n
  {
    PrintThenParse(n);
    FillThenParse(Print(n), width);
  }

  lemma FillThenParse(s: string, width: nat)
    requires AllDigits(s)
    ensures Parse(if |s| >= width then s else Zeros(width - |s|) + s) == Parse(s)
  {
    if |s| < width {
      ParseZeros(width - |s|, s);
    }
  }

  function Pow10(k: nat): nat { if k == 0 then 1 else 10 * Pow10(k - 1) }

  lemma {:induction false} PrintLength(n: nat, k: nat)
    requires k > 0 && n < Pow10(k)
    ensures |Print(n)| <= k
  {
    if n >= 10 {
      assert k > 1 by {
        assert Pow10(1) == 10;
      }
      PrintLength(n / 10, k - 1);
    }
  }

  /** Positive numbers are printed without leading zeros. */
  lemma {:induction false} PrintLeading(n: nat)
    requires n > 0
    ensures Print(n)[0] != '0'
  {
    if n >= 10 {
      PrintLeading(n / 10);
      assert Print(n)[0] == Print(n / 10)[0];
    }
  }

  lemma PaddedLeading(n: nat, width: nat)
    ensures |PrintPadded(n, width)| >= width
    ensures width >= 1 && |PrintPadded(n, width)| > width ==> PrintPadded(n, width)[0] != '0'
  {
    if n > 0 {
      PrintLeading(n);
    }
  }

  /** A numeral that does not start with zero is what its number is printed as. */
  lemma {:induction false} ParseThenPrint(s: string)
    requires Numeral(s) && s[0] != '0'
    ensures Print(Parse(s)) == s
  {
    var front, last := s[..|s| - 1], s[|s| - 1];
    assert Digit(Value(last)) == last;
    assert s == front + [last];
    if front == "" {
      assert Parse(s) == Value(last);
    } else {
      ParseThenPrint(front);
      LeadingDigit(front);
      assert Parse(s) / 10 == Parse(front) && Parse(s) % 10 == Value(last);
    }
  }
}
