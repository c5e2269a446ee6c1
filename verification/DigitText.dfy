/** Numbers as strings of decimal digits. */
module DigitText {
  import opened Arithmetic

  predicate IsDigit(c: char) { '0' <= c <= '9' }

  function DigitValue(c: char): nat
    requires IsDigit(c)
  {
    c as int - '0' as int
  }

  function DigitChar(d: nat): (c: char)
    requires d < 10
    ensures IsDigit(c) && DigitValue(c) == d
  {
    (d + '0' as int) as char
  }

  predicate AllDigits(s: string) { forall k :: 0 <= k < |s| ==> IsDigit(s[k]) }

  /** The number a digit string denotes. */
  function Digits(s: string): nat
    requires AllDigits(s)
  {
    if s == "" then 0 else Digits(s[..|s| - 1]) * 10 + DigitValue(s[|s| - 1])
  }

  function Pow10(k: nat): (p: nat)
    ensures p > 0
  {
    if k == 0 then 1 else 10 * Pow10(k - 1)
  }

  /** Shortest decimal text of a number. */
  function DecText(n: nat): (s: string)
    ensures s != ""
  {
    if n < 10 then [DigitChar(n)] else DecText(n / 10) + [DigitChar(n % 10)]
  }

  /** Decimal text in exactly `w` digits. */
  function FixedText(n: nat, w: nat): (s: string)
    ensures |s| == w
  {
    if w == 0 then "" else FixedText(n / 10, w - 1) + [DigitChar(n % 10)]
  }

  function Zeros(w: nat): (s: string)
    ensures |s| == w && forall k :: 0 <= k < w ==> s[k] == '0'
  {
    seq(w, _ => '0')
  }

  lemma {:induction false} DigitsBound(s: string)
    requires AllDigits(s)
    ensures Digits(s) < Pow10(|s|)
  {
    if s != "" { DigitsBound(s[..|s| - 1]); }
  }

  lemma {:induction false} Pow10Monotone(a: nat, b: nat)
    requires a <= b
    ensures Pow10(a) <= Pow10(b)
  {
    if a < b { Pow10Monotone(a, b - 1); }
  }

  lemma {:induction false} Pow10Add(a: nat, b: nat)
    ensures Pow10(a + b) == Pow10(a) * Pow10(b)
  {
    if a > 0 {
      Pow10Add(a - 1, b);
      Associate(10, Pow10(a - 1), Pow10(b));
    }
  }

  lemma {:induction false} Pow10Grows(a: nat, b: nat)
    requires a < b
    ensures Pow10(a) < Pow10(b)
  {
    if a + 1 < b { Pow10Grows(a, b - 1); }
  }

  lemma {:induction false} FixedStep(n: nat, w: nat)
    requires n < Pow10(w + 1)
    ensures n / 10 < Pow10(w) && FixedText(n, w + 1) == FixedText(n / 10, w) + [DigitChar(n % 10)]
  {
  }

  lemma {:induction false} FixedZeros(w: nat)
    ensures FixedText(0, w) == Zeros(w)
  {
    if w > 0 { FixedZeros(w - 1); }
  }

  lemma {:induction false} DecDigits(n: nat)
    ensures AllDigits(DecText(n)) && Digits(DecText(n)) == n
  {
    if n >= 10 {
      DecDigits(n / 10);
      assert DecText(n)[..|DecText(n)| - 1] == DecText(n / 10);
    } else {
      assert [DigitChar(n)][..0] == "";
    }
  }

  lemma {:induction false} DecLength(n: nat, k: nat)
    requires k > 0
    ensures |DecText(n)| <= k <==> n < Pow10(k)
  {
    if n < 10 {
      Pow10Monotone(1, k);
    } else if k == 1 {
      assert Pow10(1) == 10;
    } else {
      DecLength(n / 10, k - 1);
    }
  }

  lemma {:induction false} FixedDigits(n: nat, w: nat)
    requires n < Pow10(w)
    ensures AllDigits(FixedText(n, w)) && Digits(FixedText(n, w)) == n
  {
    if w > 0 {
      FixedDigits(n / 10, w - 1);
      assert FixedText(n, w)[..w - 1] == FixedText(n / 10, w - 1);
    }
  }
}
