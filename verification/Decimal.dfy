/** Decimal numerals: the printing behind "%d" and the value strconv.Atoi assigns to a run of digits. */
module Decimal {

  predicate IsDigit(c: char) {
    '0' <= c <= '9'
  }

  predicate IsDigits(s: string) {
    forall i | 0 <= i < |s| :: IsDigit(s[i])
  }

  function DigitOf(c: char): (d: nat)
    requires IsDigit(c)
    ensures d < 10
  {
    c as int - '0' as int
  }

  function ValueOf(s: string): nat
    requires IsDigits(s)
  {
    if s == "" then 0 else 10 * ValueOf(s[..|s| - 1]) + DigitOf(s[|s| - 1])
  }

  function Digit(d: nat): (c: char)
    requires d < 10
    ensures IsDigit(c) && DigitOf(c) == d
  {
    ('0' as int + d) as char
  }

  function Itoa(n: nat): (s: string)
    ensures s != "" && IsDigits(s)
  {
    if n < 10 then [Digit(n)] else Itoa(n / 10) + [Digit(n % 10)]
  }

  lemma {:induction false} ItoaValue(n: nat)
    ensures ValueOf(Itoa(n)) == n
  {
    var s := Itoa(n);
    if n < 10 {
      assert s[..0] == "";
    } else {
      ItoaValue(n / 10);
      assert s[..|s| - 1] == Itoa(n / 10);
    }
  }

  /** Different numbers print differently, also behind a common prefix such as "swp". */
  lemma {:induction false} ItoaInjective(prefix: string, m: nat, n: nat)
    requires prefix + Itoa(m) == prefix + Itoa(n)
    ensures m == n
  {
    assert (prefix + Itoa(m))[|prefix|..] == Itoa(m);
    assert (prefix + Itoa(n))[|prefix|..] == Itoa(n);
    ItoaValue(m);
    ItoaValue(n);
  }
}
