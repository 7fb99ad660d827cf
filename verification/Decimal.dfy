/** Decimal numerals, as formatting and parsing of ids and suffixes use them. */
module Decimal {

  const ZERO: int := '0' as int

  predicate IsDigit(c: char) { '0' <= c <= '9' }

  predicate AllDigits(s: string) { forall k :: 0 <= k < |s| ==> IsDigit(s[k]) }

  function Digits(n: nat): (s: string)
    ensures |s| >= 1 && AllDigits(s)
  {
    if n < 10 then [(ZERO + n) as char] else Digits(n / 10) + [(ZERO + n % 10) as char]
  }

  /** Two digits at least, as the format `02d` gives them. */
  function Pad2(n: nat): (s: string)
    ensures |s| >= 2 && AllDigits(s)
  {
    if n < 10 then "0" + Digits(n) else Digits(n)
  }

  function Value(s: string): nat
    requires AllDigits(s)
  {
    if s == "" then 0 else 10 * Value(s[..|s| - 1]) + (s[|s| - 1] as int - ZERO)
  }

  lemma {:induction false} ValueOfDigits(n: nat)
    ensures Value(Digits(n)) == n
  {
    if n < 10 {
      assert Value("") == 0;
      assert Digits(n)[..0] == "";
    } else {
      ValueOfDigits(n / 10);
      assert Digits(n)[..|Digits(n)| - 1] == Digits(n / 10);
    }
  }

  lemma {:induction false} ValueOfPad2(n: nat)
    ensures Value(Pad2(n)) == n
  {
    ValueOfDigits(n);
    if n < 10 {
      assert Pad2(n)[..1] == "0" && "0"[..0] == "";
      assert Value("") == 0;
      assert Value("0") == 0;
    }
  }

  /** Different numbers are written differently. */
  lemma {:induction false} DigitsInjective(m: nat, n: nat)
    requires Digits(m) == Digits(n)
    ensures m == n
  {
    ValueOfDigits(m);
    ValueOfDigits(n);
  }

  lemma {:induction false} Pad2Injective(m: nat, n: nat)
    requires Pad2(m) == Pad2(n)
    ensures m == n
  {
    ValueOfPad2(m);
    ValueOfPad2(n);
  }
}
