/** Decimal text of natural numbers: String(n), padStart with zeros, and reading back. */
module Decimal {

  predicate IsDigit(c: char) { '0' <= c <= '9' }

  predicate AllDigits(s: string) { forall i :: 0 <= i < |s| ==> IsDigit(s[i]) }

  function DigitChar(d: nat): char
    requires d < 10
  {
    '0' + d as char
  }

  function DigitValue(c: char): nat
    requires IsDigit(c)
  {
    c as int - '0' as int
  }

  /** String(n).padStart(width, "0"). */
  function Padded(n: nat, width: nat): (s: string)
    ensures AllDigits(s) && |s| >= 1 && |s| >= width
    decreases n, width
  {
    if n < 10 && width <= 1 then [DigitChar(n)]
    else Padded(n / 10, if width == 0 then 0 else width - 1) + [DigitChar(n % 10)]
  }

  /** String(n). */
  function Text(n: nat): string { Padded(n, 1) }

  /** The number a run of digits stands for. */
  function Value(s: string): nat
    requires AllDigits(s)
  {
    if s == "" then 0
    else 10 * Value(s[..|s| - 1]) + DigitValue(s[|s| - 1])
  }

  lemma {:induction false} ValueOfPadded(n: nat, width: nat)
    ensures Value(Padded(n, width)) == n
    decreases n, width
  {
    if !(n < 10 && width <= 1) {
      var shorter := if width == 0 then 0 else width - 1;
      ValueOfPadded(n / 10, shorter);
      assert Padded(n, width)[..|Padded(n, width)| - 1] == Padded(n / 10, shorter);
    }
  }

  function PowerOfTen(k: nat): (p: nat)
    ensures p >= 1
  {
    if k == 0 then 1 else 10 * PowerOfTen(k - 1)
  }

  /** Padding is exact when the number fits. */
  lemma {:induction false} PaddedWidth(n: nat, width: nat)
    requires width >= 1
    ensures |Padded(n, width)| == width <==> n < PowerOfTen(width)
    decreases n, width
  {
    if width == 1 {
      if n >= 10 {
        assert |Padded(n, 1)| >= 2;
      }
      assert PowerOfTen(1) == 10 * PowerOfTen(0);
    } else {
      PaddedWidth(n / 10, width - 1);
    }
  }

  /** Without padding, k digits reach up to 10^k. */
  lemma {:induction false} TextWidth(n: nat, width: nat, k: nat)
    requires width <= 1 <= k
    ensures |Padded(n, width)| <= k <==> n < PowerOfTen(k)
    decreases n
  {
    assert PowerOfTen(k) == 10 * PowerOfTen(k - 1);
    if n >= 10 {
      if k > 1 {
        TextWidth(n / 10, 0, k - 1);
      } else {
        assert |Padded(n / 10, 0)| >= 1;
      }
    } else if width == 1 || n < 10 {
      assert PowerOfTen(k - 1) >= 1;
    }
  }

  lemma LastDigit(n: nat, front: nat, last: nat)
    requires n == 10 * front + last && last < 10
    ensures n / 10 == front && n % 10 == last
  {}

  lemma PaddedStep(n: nat, width: nat, front: nat, last: nat)
    requires n == 10 * front + last && last < 10 && width > 1
    ensures Padded(n, width) == Padded(front, width - 1) + [DigitChar(last)]
  {
    LastDigit(n, front, last);
  }

  lemma ValueOfDigit(s: string)
    requires AllDigits(s) && |s| == 1
    ensures Value(s) == DigitValue(s[0]) && [DigitChar(DigitValue(s[0]))] == s
  {
    assert s[..0] == "";
  }

  /** Printing is the inverse of reading on texts of the padded width. */
  lemma {:induction false} PaddedOfValue(s: string)
    requires AllDigits(s) && |s| >= 1
    ensures Padded(Value(s), |s|) == s
  {
    if |s| == 1 {
      ValueOfDigit(s);
    } else {
      var front, last := s[..|s| - 1], s[|s| - 1];
      PaddedOfValue(front);
      PaddedStep(Value(s), |s|, Value(front), DigitValue(last));
      assert s == front + [DigitChar(DigitValue(last))];
    }
  }
}
