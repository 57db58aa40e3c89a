/** Strict decimal numbers: what a digit string denotes, and its printed form. */
module Decimal {

  predicate IsDigit(c: char) { '0' <= c <= '9' }

  predicate AllDigits(s: string) { forall i :: 0 <= i < |s| ==> IsDigit(s[i]) }

  function Digit(c: char): (d: nat)
    requires IsDigit(c)
    ensures d < 10
  { c as int - '0' as int }

  /** The number a string of digits denotes; leading zeros do not matter. */
  function Value(s: string): nat
    requires AllDigits(s)
  {
    if s == "" then 0 else Value(s[..|s| - 1]) * 10 + Digit(s[|s| - 1])
  }

  /** Reading one more digit. */
  lemma ValueNext(s: string, i: nat)
    requires AllDigits(s) && i < |s|
    ensures Value(s[..i + 1]) == Value(s[..i]) * 10 + Digit(s[i])
  {
    assert s[..i + 1][..i] == s[..i];
  }

  /** More digits never make the number smaller. */
  lemma {:induction false} ValueGrows(s: string, i: nat)
    requires AllDigits(s) && i <= |s|
    ensures Value(s[..i]) <= Value(s)
    decreases |s| - i
  {
    if i == |s| { assert s[..i] == s; }
    else { ValueNext(s, i); ValueGrows(s, i + 1); }
  }

  function DigitChar(d: nat): (c: char)
    requires d < 10
    ensures IsDigit(c) && Digit(c) == d
  { '0' + d as char }

  function Print(n: nat): (s: string)
    ensures s != "" && AllDigits(s)
    decreases n
  {
    if n < 10 then [DigitChar(n)] else Print(n / 10) + [DigitChar(n % 10)]
  }

  lemma {:induction false} ValueOfPrint(n: nat)
    ensures Value(Print(n)) == n
    decreases n
  {
    var s := Print(n);
    if n < 10 {
      assert s[..0] == "";
    } else {
      assert s[..|s| - 1] == Print(n / 10);
      ValueOfPrint(n / 10);
    }
  }

  /** Accumulating digits under a cap: the accumulator never exceeds it, and the
      scan succeeds exactly when the denoted number does not exceed it. */
  method ParseCapped(s: string, cap: nat) returns (ok: bool, n: nat)
    requires AllDigits(s)
    ensures ok <==> Value(s) <= cap
    ensures ok ==> n == Value(s)
  {
    n := 0;
    for i := 0 to |s|
      invariant n == Value(s[..i]) && n <= cap
    {
      var d := Digit(s[i]);
      ValueNext(s, i);
      if n > cap / 10 || (n == cap / 10 && d > cap % 10) {
        ValueGrows(s, i + 1);
        return false, n;
      }
      n := n * 10 + d;
    }
    assert s[..|s|] == s;
    ok := true;
  }
}
