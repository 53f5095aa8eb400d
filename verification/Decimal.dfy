/** Decimal numerals, as written behind the `$` of a placeholder. */
module Decimal {

  function Digit(d: nat): char
    requires d < 10
  {
    '0' + d as char
  }

  predicate IsDigit(c: char) {
    '0' <= c <= '9'
  }

  function Itoa(n: nat): (s: string)
    ensures |s| > 0 && forall i :: 0 <= i < |s| ==> IsDigit(s[i])
  {
    if n < 10 then [Digit(n)] else Itoa(n / 10) + [Digit(n % 10)]
  }

  function Atoi(s: string): nat
    requires forall i :: 0 <= i < |s| ==> IsDigit(s[i])
  {
    if s == "" then 0
    else
      assert IsDigit(s[|s|-1]);
      Atoi(s[..|s|-1]) * 10 + (s[|s|-1] as int - '0' as int)
  }

  lemma {:induction false} ItoaRoundTrip(n: nat)
    ensures Atoi(Itoa(n)) == n
  {
    var s := Itoa(n);
    if n < 10 {
      assert s[..|s|-1] == "";
    } else {
      ItoaRoundTrip(n / 10);
      assert s[..|s|-1] == Itoa(n / 10);
    }
  }

  lemma ItoaInjective(m: nat, n: nat)
    requires Itoa(m) == Itoa(n)
    ensures m == n
  {
    ItoaRoundTrip(m);
    ItoaRoundTrip(n);
  }

  /** Reading on from the number read so far, digit by digit from the left. */
  function ReadOn(sofar: nat, s: string): nat
    requires forall i :: 0 <= i < |s| ==> IsDigit(s[i])
    decreases |s|
  {
    if s == "" then sofar
    else
      assert IsDigit(s[0]);
      ReadOn(10 * sofar + (s[0] as int - '0' as int), s[1..])
  }

  lemma {:induction false} ReadLast(sofar: nat, s: string, c: char)
    requires IsDigit(c) && forall i :: 0 <= i < |s| ==> IsDigit(s[i])
    ensures ReadOn(sofar, s + [c]) == 10 * ReadOn(sofar, s) + (c as int - '0' as int)
    decreases |s|
  {
    if s == "" {
      assert s + [c] == [c] && [c][1..] == "";
    } else {
      assert (s + [c])[1..] == s[1..] + [c] && IsDigit(s[0]);
      ReadLast(10 * sofar + (s[0] as int - '0' as int), s[1..], c);
    }
  }

  /** A numeral read from the left is its number, and it has no leading zero. */
  lemma {:induction false} ItoaReads(n: nat)
    ensures ReadOn(0, Itoa(n)) == n
    ensures n > 0 ==> Itoa(n)[0] != '0'
  {
    if n < 10 {
      assert [Digit(n)][1..] == "";
    } else {
      ItoaReads(n / 10);
      ReadLast(0, Itoa(n / 10), Digit(n % 10));
    }
  }
}
