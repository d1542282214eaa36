/** Decimal text of integers, as BigInt's toString and constructor convert it. */
module Decimal {
  const DIGITS: string := "0123456789"

  predicate IsDigit(c: char) { '0' <= c <= '9' }

  function Value(c: char): int
    requires IsDigit(c)
  {
    c as int - '0' as int
  }

  predicate AllDigits(s: string) { forall i :: 0 <= i < |s| ==> IsDigit(s[i]) }

  /** The pattern -?\d+ that amounts must match. */
  predicate IsDecimal(s: string)
  {
    (|s| >= 1 && AllDigits(s)) || (|s| >= 2 && s[0] == '-' && AllDigits(s[1..]))
  }

  function NatText(n: nat): string
  {
    if n < 10 then [DIGITS[n]] else NatText(n / 10) + [DIGITS[n % 10]]
  }

  function Text(n: int): string
  {
    if n < 0 then ['-'] + NatText(-n) else NatText(n)
  }

  function ParseNat(s: string): nat
    requires AllDigits(s)
  {
    if s == [] then 0 else ParseNat(s[..|s| - 1]) * 10 + Value(s[|s| - 1])
  }

  function Parse(s: string): int
    requires IsDecimal(s)
  {
    if s[0] == '-' then -(ParseNat(s[1..]) as int) else ParseNat(s)
  }

  lemma DigitRoundTrip(n: nat)
    requires n < 10
    ensures IsDigit(DIGITS[n]) && Value(DIGITS[n]) == n
  {}

  lemma AppendDigit(s: string, c: char)
    requires AllDigits(s) && IsDigit(c)
    ensures AllDigits(s + [c]) && ParseNat(s + [c]) == ParseNat(s) * 10 + Value(c)
  {
    assert (s + [c])[..|s|] == s;
  }

  lemma {:induction false} NatRoundTrip(n: nat)
    ensures |NatText(n)| >= 1 && AllDigits(NatText(n)) && ParseNat(NatText(n)) == n
  {
    DigitRoundTrip(n % 10);
    if n < 10 {
      AppendDigit([], DIGITS[n]);
      assert [] + [DIGITS[n]] == NatText(n);
    } else {
      NatRoundTrip(n / 10);
      AppendDigit(NatText(n / 10), DIGITS[n % 10]);
    }
  }

  /** Printing an integer gives a well-formed amount that reads back as the integer. */
  lemma RoundTrip(n: int)
    ensures IsDecimal(Text(n)) && Parse(Text(n)) == n
  {
    if n < 0 {
      NatRoundTrip(-n);
      assert Text(n)[1..] == NatText(-n);
    } else {
      NatRoundTrip(n);
    }
  }
}
