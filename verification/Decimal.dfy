/** Decimal text of integers, as std::to_string writes it. */
module Decimal {

  function Digit(d: nat): (c: char)
    requires d < 10
    ensures c as int == '0' as int + d
  {
    ('0' as int + d) as char
  }

  function Text(n: nat): (s: string)
    ensures |s| >= 1
  {
    if n < 10 then [Digit(n)] else Text(n / 10) + [Digit(n % 10)]
  }

  /** to_string of a signed value. */
  function SignedText(n: int): (s: string)
    ensures |s| >= 1
  {
    if n < 0 then "-" + Text(-n) else Text(n)
  }

  predicate Digits(s: string) {
    forall k | 0 <= k < |s| :: '0' <= s[k] <= '9'
  }

  /** The number a digit string names, read left to right. */
  function Value(s: string): nat
    requires Digits(s)
  {
    if s == "" then 0
    else Value(s[..|s| - 1]) * 10 + (s[|s| - 1] as int - '0' as int)
  }

  lemma {:induction false} TextReadsBack(n: nat)
    ensures Digits(Text(n))
    ensures Value(Text(n)) == n
  {
    if n < 10 {
      assert Text(n)[..0] == "";
    } else {
      TextReadsBack(n / 10);
      assert Text(n)[..|Text(n)| - 1] == Text(n / 10);
    }
  }

  lemma TextIsInjective(m: nat, n: nat)
    requires Text(m) == Text(n)
    ensures m == n
  {
    TextReadsBack(m);
    TextReadsBack(n);
  }

  lemma SignTells(n: int)
    ensures (SignedText(n)[0] == '-') == (n < 0)
    ensures n < 0 ==> SignedText(n)[1..] == Text(-n)
  {
    if n >= 0 {
      TextReadsBack(n);
    }
  }

  /** Two numbers, of whatever sign, never share a text. */
  lemma SignedTextIsInjective(m: int, n: int)
    requires SignedText(m) == SignedText(n)
    ensures m == n
  {
    SignTells(m);
    SignTells(n);
    TextIsInjective(if m < 0 then -m else m, if n < 0 then -n else n);
  }

  lemma {:induction false} WidthIsMonotone(m: nat, n: nat)
    requires m <= n
    ensures |Text(m)| <= |Text(n)|
  {
    if m >= 10 {
      WidthIsMonotone(m / 10, n / 10);
    }
  }

  function Power(k: nat): (p: nat)
    ensures p >= 1 && (k > 0 ==> p >= 10)
  {
    if k == 0 then 1 else 10 * Power(k - 1)
  }

  /** A number has at most k digits exactly when it is below ten to the k. */
  lemma {:induction false} WidthBound(n: nat, k: nat)
    requires k >= 1
    ensures |Text(n)| <= k <==> n < Power(k)
  {
    if n >= 10 && k >= 2 {
      WidthBound(n / 10, k - 1);
    }
  }

  /** Adding a few dozen plus the width cannot make a number two digits wider. */
  lemma {:induction false} RoomForOneMoreDigit(k: nat)
    requires k >= 1
    ensures Power(k) + 40 + k <= Power(k + 1)
  {
    if k > 1 {
      RoomForOneMoreDigit(k - 1);
    }
  }

  /** More digits make at least ten times the number. */
  lemma {:induction false} ValueGrows(s: string, n: nat)
    requires n < |s| && Digits(s)
    ensures Digits(s[..n]) && Value(s) >= 10 * Value(s[..n])
  {
    if n < |s| - 1 {
      ValueGrows(s[..|s| - 1], n);
      assert s[..|s| - 1][..n] == s[..n];
    }
  }
}
