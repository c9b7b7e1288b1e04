/** Decimal texts of natural numbers, and reading them back. */
module Decimal {
  import opened Wrappers

  predicate IsDigit(c: char) { '0' <= c <= '9' }

  function DigitChar(d: nat): (c: char)
    requires d < 10
    ensures IsDigit(c) && (c - '0') as nat == d
  {
    '0' + d as char
  }

  /** `to_string` of an unsigned integer. */
  function Digits(n: nat): (r: string)
    ensures r != [] && forall i :: 0 <= i < |r| ==> IsDigit(r[i])
    ensures r[0] == '0' <==> n == 0
    ensures n == 0 ==> r == "0"
  {
    if n < 10 then [DigitChar(n)] else Digits(n / 10) + [DigitChar(n % 10)]
  }

  predicate AllDigits(s: string) { forall i :: 0 <= i < |s| ==> IsDigit(s[i]) }

  /** The number a run of digits stands for. */
  function ValueOf(s: string): nat
    requires AllDigits(s)
  {
    if s == [] then 0 else 10 * ValueOf(s[..|s| - 1]) + (s[|s| - 1] - '0') as nat
  }

  lemma {:induction false} ValueOfDigits(n: nat)
    ensures ValueOf(Digits(n)) == n
  {
    if n < 10 {
      assert Digits(n)[..0] == [];
    } else {
      ValueOfDigits(n / 10);
      assert Digits(n)[..|Digits(n)| - 1] == Digits(n / 10);
    }
  }

  const USIZE_END: nat := 0x1_0000_0000_0000_0000

  /** `s.parse::<usize>()`: a leading `+` is allowed. */
  function ParseUsize(s: string): Option<nat> {
    var t := if s != "" && s[0] == '+' then s[1..] else s;
    if t == "" || !AllDigits(t) || ValueOf(t) >= USIZE_END then None else Some(ValueOf(t))
  }

  lemma ParseDigits(n: nat)
    requires n < USIZE_END
    ensures ParseUsize(Digits(n)) == Some(n)
  {
    ValueOfDigits(n);
    assert Digits(n)[0] != '+';
  }

  /** No text of a number is shorter than its digits, and no other is as short. */
  lemma {:induction false} DigitsAreShortest(t: string)
    requires t != "" && AllDigits(t)
    ensures var d := Digits(ValueOf(t)); |d| <= |t| && (|d| == |t| ==> d == t)
    decreases |t|
  {
    var rest, last := t[..|t| - 1], t[|t| - 1];
    assert t == rest + [last] && IsDigit(last);
    LastDigit(ValueOf(rest), last);
    if rest != "" {
      DigitsAreShortest(rest);
    }
  }

  /** One digit more. */
  lemma LastDigit(n: nat, last: char)
    requires IsDigit(last)
    ensures var d := (last - '0') as nat; n == 0 ==> Digits(10 * n + d) == [last]
    ensures var d := (last - '0') as nat; n > 0 ==> Digits(10 * n + d) == Digits(n) + [last]
  {
    var d := (last - '0') as nat;
    assert (10 * n + d) / 10 == n && (10 * n + d) % 10 == d;
  }
}
