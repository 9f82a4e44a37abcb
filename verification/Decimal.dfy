/** Decimal text of natural numbers, and the canonical uint64 wire form of the
    signed authorization objects. */
module Decimal {
  import opened Wrappers

  const UINT64_MAX: int := 0xFFFF_FFFF_FFFF_FFFF

  predicate IsDigit(c: char) {
    '0' <= c <= '9'
  }

  predicate AllDigits(s: string) {
    forall i :: 0 <= i < |s| ==> IsDigit(s[i])
  }

  function DigitValue(c: char): (d: nat)
    requires IsDigit(c)
    ensures d < 10
  {
    c as int - '0' as int
  }

  function DigitChar(d: nat): (c: char)
    requires d < 10
    ensures IsDigit(c) && DigitValue(c) == d
  {
    ('0' as int + d) as char
  }

  /** The decimal text without leading zeros. */
  function Print(n: nat): (s: string)
    ensures |s| > 0 && AllDigits(s)
  {
    if n < 10 then [DigitChar(n)] else Print(n / 10) + [DigitChar(n % 10)]
  }

  /** The number a digit string denotes, leading zeros included. */
  function Value(s: string): nat
    requires AllDigits(s)
  {
    if s == "" then 0 else 10 * Value(s[..|s| - 1]) + DigitValue(s[|s| - 1])
  }

  predicate Canonical(s: string) {
    s != "" && AllDigits(s) && (s[0] == '0' ==> |s| == 1)
  }

  lemma {:induction false} ValueOfPrint(n: nat)
    ensures Value(Print(n)) == n
  {
    if n < 10 {
      assert Print(n)[..0] == "";
    } else {
      ValueOfPrint(n / 10);
      assert Print(n)[..|Print(n)| - 1] == Print(n / 10);
    }
  }

  lemma {:induction false} PrintIsCanonical(n: nat)
    ensures Canonical(Print(n))
    ensures Print(n)[0] == '0' <==> n == 0
  {
    if n >= 10 {
      PrintIsCanonical(n / 10);
    }
  }

  lemma {:induction false} PrintOfValue(s: string)
    requires Canonical(s)
    ensures Print(Value(s)) == s
    ensures s[0] != '0' ==> Value(s) > 0
  {
    var front, last := s[..|s| - 1], s[|s| - 1];
    if front == "" {
      assert s == [last];
    } else {
      PrintOfValue(front);
      assert s == front + [last];
      assert Value(s) / 10 == Value(front) && Value(s) % 10 == DigitValue(last);
    }
  }

  /** The wire parser: exactly the canonical decimal texts of the uint64 range. */
  function ParseUint64Wire(value: string): Option<nat> {
    if value == "0" then Some(0)
    else if value == "" then None
    else if value[0] == '0' then None
    else if !AllDigits(value) then None
    else if Value(value) > UINT64_MAX then None
    else Some(Value(value))
  }

  /** The wire form is a bijection between the uint64 range and the accepted texts. */
  lemma WireBijection(value: string, n: nat)
    ensures ParseUint64Wire(value) == Some(n) <==> n <= UINT64_MAX && value == Print(n)
  {
    ValueOfPrint(n);
    PrintIsCanonical(n);
    if Canonical(value) {
      PrintOfValue(value);
    }
  }
}
