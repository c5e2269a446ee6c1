/** Reading and writing decimals as text. */
module DecimalText {
  import opened DecimalWide
  import opened DigitText

  const SCALE: nat := 18
  const MAX_INTEGER_DIGITS: nat := 20

  function TrimZeros(s: string): (r: string)
    ensures |r| <= |s|
  {
    if s != "" && s[|s| - 1] == '0' then TrimZeros(s[..|s| - 1]) else s
  }

  function Reverse(s: string): string {
    if s == "" then "" else Reverse(s[1..]) + [s[0]]
  }

  // ---- the parts of an input ----

  function Unsigned(s: string): string {
    if s != "" && (s[0] == '-' || s[0] == '+') then s[1..] else s
  }

  /** Position of the first point, or the length. */
  function Point(s: string): (p: nat)
    ensures p <= |s| && (p < |s| ==> s[p] == '.')
    ensures forall k :: 0 <= k < p ==> s[k] != '.'
  {
    if s == "" || s[0] == '.' then 0 else 1 + Point(s[1..])
  }

  function IntPart(s: string): string { var b := Unsigned(s); b[..Point(b)] }

  function FracPart(s: string): string {
    var b := Unsigned(s);
    if Point(b) < |b| then b[Point(b) + 1..] else ""
  }

  function Negative(s: string): bool { s != "" && s[0] == '-' }

  // ---- reading ----

  /** A value, one of the two exceptions, or a signed overflow, which has no defined outcome. */
  datatype Outcome = Read(v: int) | InvalidArgument | OverflowError | Undefined

  /** The integer part: its digits, or the exception at the first bad character or the 21st digit. */
  method ReadInteger(b: string) returns (bad: Outcome, value: nat, pos: nat)
    ensures var i := b[..Point(b)];
      && (bad.Read? <==> AllDigits(i) && |i| <= MAX_INTEGER_DIGITS)
      && (bad.Read? ==> pos == |i| && value == Digits(i) < Pow10(|i|))
      && (bad == OverflowError <==> |i| > MAX_INTEGER_DIGITS && AllDigits(i[..MAX_INTEGER_DIGITS + 1]))
    ensures bad != Undefined
  {
    hide Pow10, Digits;
    pos, value := 0, 0;
    var digits := 0;
    DigitsStep(b, 0);
    while pos < |b| && b[pos] != '.'
      invariant pos == digits <= Point(b) && digits <= MAX_INTEGER_DIGITS
      invariant AllDigits(b[..pos]) && value == Digits(b[..pos]) < Pow10(pos)
      decreases |b| - pos
    {
      if !IsDigit(b[pos]) {
        assert !AllDigits(b[..Point(b)]) by { assert b[..Point(b)][pos] == b[pos]; }
        return InvalidArgument, value, pos;
      }
      DigitsStep(b, pos);
      value := value * 10 + DigitValue(b[pos]);
      digits := digits + 1;
      if digits > MAX_INTEGER_DIGITS {
        assert b[..Point(b)][..MAX_INTEGER_DIGITS + 1] == b[..pos + 1];
        return OverflowError, value, pos;
      }
      pos := pos + 1;
    }
    assert b[..pos] == b[..Point(b)];
    bad := Read(0);
  }

  /** One digit more. */
  lemma {:induction false} DigitsStep(b: string, pos: nat)
    requires pos <= |b| && AllDigits(b[..pos])
    ensures pos == 0 ==> b[..pos] == "" && Digits(b[..pos]) == 0 && Pow10(pos) == 1
    ensures Pow10(pos + 1) == 10 * Pow10(pos)
    ensures pos < |b| && IsDigit(b[pos]) ==> AllDigits(b[..pos + 1]) && Digits(b[..pos + 1]) == Digits(b[..pos]) * 10 + DigitValue(b[pos])
  {
    if pos < |b| { assert b[..pos + 1][..pos] == b[..pos]; }
  }

  lemma {:induction false} Pow10Of18()
    ensures Pow10(18) == SCALE_FACTOR && Pow10(20) == 100 * SCALE_FACTOR
  {
    assert Pow10(6) == 1_000_000;
    var k := 6;
    assert Pow10(k + 6) == 1_000_000_000_000 by { Pow10Add(k, 6); }
    Pow10Add(k + 6, 6);
    assert Pow10(k + 14) == 10 * Pow10(k + 13) && Pow10(k + 13) == 10 * Pow10(k + 12);
  }

  /** The fraction: the accumulator is a signed 128-bit number, the digit counter an 8-bit one. */
  method ReadFraction(f: string) returns (bad: Outcome, value: nat, count: nat)
    ensures bad.Read? ==> AllDigits(f) && value == Digits(f) < W127 && count == |f| % 0x100
    ensures bad == InvalidArgument ==> !AllDigits(f)
    ensures bad == Undefined ==> |f| > SCALE
    ensures AllDigits(f) && Digits(f) < W127 ==> bad.Read?
    ensures bad != OverflowError
  {
    hide Digits;
    value, count := 0, 0;
    var pos := 0;
    DigitsStep(f, 0);
    while pos < |f|
      invariant pos <= |f| && count == pos % 0x100
      invariant AllDigits(f[..pos]) && value == Digits(f[..pos]) < W127
      decreases |f| - pos
    {
      if !IsDigit(f[pos]) {
        return InvalidArgument, value, count;
      }
      DigitsStep(f, pos);
      if value * 10 + DigitValue(f[pos]) >= W127 {
        FractionOverflow(f[..pos + 1]);
        if AllDigits(f) { DigitsPrefix(f, pos + 1); }
        return Undefined, value, count;
      }
      value := value * 10 + DigitValue(f[pos]);
      count := (count + 1) % 0x100;
      pos := pos + 1;
    }
    assert f[..pos] == f;
    bad := Read(0);
  }

  lemma {:induction false} DigitsPrefix(s: string, k: nat)
    requires AllDigits(s) && k <= |s|
    ensures Digits(s[..k]) <= Digits(s)
  {
    if k < |s| {
      assert s[..|s| - 1][..k] == s[..k];
      DigitsPrefix(s[..|s| - 1], k);
    } else {
      assert s[..k] == s;
    }
  }

  lemma {:induction false} FractionOverflow(s: string)
    requires AllDigits(s) && Digits(s) >= W127
    ensures |s| > SCALE
  {
    DigitsBound(s);
    if |s| <= SCALE {
      Pow10Monotone(|s|, SCALE);
      Pow10Of18();
    }
  }

  /** The text is an optional sign, at most 20 digits, and a point with digits or none. */
  predicate WellFormed(s: string) {
    AllDigits(IntPart(s)) && |IntPart(s)| <= MAX_INTEGER_DIGITS && AllDigits(FracPart(s))
  }

  function Signed(s: string, v: int): int { if Negative(s) then 0 - v else v }

  /** parse_decimal_t. */
  method ParseDecimal(s: string) returns (o: Outcome)
    ensures WellFormed(s) && |FracPart(s)| <= SCALE ==>
      o == Read(Signed(s, Digits(IntPart(s)) * SCALE_FACTOR + Digits(FracPart(s)) * Pow10(SCALE - |FracPart(s)|)))
    ensures WellFormed(s) && |FracPart(s)| % 0x100 <= SCALE && Digits(FracPart(s)) < Pow10(|FracPart(s)| % 0x100) ==> o.Read?
    ensures o.Read? ==>
      && WellFormed(s) && |FracPart(s)| % 0x100 <= SCALE
      && o.v == Signed(s, Digits(IntPart(s)) * SCALE_FACTOR + Digits(FracPart(s)) * Pow10(SCALE - |FracPart(s)| % 0x100))
    ensures |IntPart(s)| > MAX_INTEGER_DIGITS && AllDigits(IntPart(s)[..MAX_INTEGER_DIGITS + 1]) ==> o == OverflowError
    ensures o == OverflowError ==>
      (|IntPart(s)| > MAX_INTEGER_DIGITS && AllDigits(IntPart(s)[..MAX_INTEGER_DIGITS + 1])) || |FracPart(s)| >= 0x100
    ensures o == InvalidArgument ==> !WellFormed(s) || |FracPart(s)| % 0x100 > SCALE
    ensures o == Undefined ==> |FracPart(s)| > SCALE
  {
    hide Digits, Pow10, Point, AllDigits, Signed;
    if s == "" {
      EmptyInput();
      return Read(0);
    }
    var b := Unsigned(s);
    assert IntPart(s) == b[..Point(b)];
    var bad, integer, pos := ReadInteger(b);
    if !bad.Read? { return bad; }
    var f := if pos < |b| then b[pos + 1..] else "";
    assert f == FracPart(s);
    var fraction, count;
    assert AllDigits(f) && |f| % 0x100 <= SCALE && Digits(f) < Pow10(|f| % 0x100) ==> Digits(f) < W127 by { SmallPower(|f| % 0x100); }
    bad, fraction, count := ReadFraction(f);
    if !bad.Read? { return bad; }
    if count > SCALE { return InvalidArgument; }
    Pow10Monotone(|IntPart(s)|, MAX_INTEGER_DIGITS);
    DigitsBound(f);
    assert |f| <= SCALE ==> count == |f|;
    o := Assemble(s, integer, fraction, count);
    assert |f| <= SCALE ==> o == Read(Signed(s, integer * SCALE_FACTOR + fraction * Pow10(SCALE - |f|)));
  }

  lemma {:induction false} EmptyInput()
    ensures IntPart("") == "" && FracPart("") == "" && AllDigits("") && Digits("") == 0
    ensures Signed("", 0) == 0
  {
  }

  /** Scaling and adding both parts, with the overflow guard at the end. */
  method Assemble(s: string, integer: nat, fraction: nat, count: nat) returns (o: Outcome)
    requires integer < Pow10(MAX_INTEGER_DIGITS) && fraction < W127 && count <= SCALE
    ensures o.Read? ==> o.v == Signed(s, integer * SCALE_FACTOR + fraction * Pow10(SCALE - count))
    ensures fraction < Pow10(count) ==> o.Read?
    ensures o != InvalidArgument
  {
    var result := integer * SCALE_FACTOR;
    var fracScale := 1;
    for i := 0 to SCALE - count
      invariant fracScale == Pow10(i)
    {
      fracScale := fracScale * 10;
    }
    Pow10Of18();
    assert fraction < Pow10(count) ==> fraction * fracScale < SCALE_FACTOR by {
      Pow10Add(count, SCALE - count);
      if fraction < Pow10(count) { MulStrict(fraction, Pow10(count), fracScale); }
    }
    if fraction * fracScale >= W127 || result + fraction * fracScale >= W127 { return Undefined; }
    result := result + fraction * fracScale;
    if integer != 0 && result / SCALE_FACTOR != integer { return OverflowError; }
    o := Read(if Negative(s) then 0 - result else result);
  }

  lemma {:induction false} MulStrict(a: nat, b: nat, c: nat)
    requires a < b && c > 0
    ensures a * c < b * c
  {
  }

  lemma {:induction false} SmallPower(k: nat)
    ensures k <= SCALE ==> Pow10(k) < W127
  {
    if k <= SCALE {
      Pow10Monotone(k, SCALE);
      Pow10Of18();
    }
  }

  /** The number read, over 10^18, is the number the text denotes. */
  predicate Denotes(s: string, v: int)
    requires WellFormed(s)
  {
    var n := |FracPart(s)|;
    v * Pow10(n) == Signed(s, (Digits(IntPart(s)) * Pow10(n) + Digits(FracPart(s))) * SCALE_FACTOR)
  }

  lemma {:induction false} ExactCore(i: nat, f: nat, p: nat, q: nat, sf: nat)
    requires p > 0 && sf > 0
    ensures (i * sf + f * q) * p == (i * p + f) * sf <==> f == 0 || q * p == sf
  {
    calc {
      (i * sf + f * q) * p - (i * p + f) * sf;
      { assert (i * sf + f * q) * p == (i * sf) * p + (f * q) * p; assert (i * p + f) * sf == (i * p) * sf + f * sf; }
      (i * sf) * p + (f * q) * p - (i * p) * sf - f * sf;
      { assert (i * sf) * p == (i * p) * sf; assert (f * q) * p == f * (q * p); }
      f * (q * p) - f * sf;
      f * (q * p - sf);
    }
    assert f * (q * p - sf) == 0 <==> f == 0 || q * p - sf == 0;
  }

  lemma {:induction false} SignedTimes(s: string, a: int, p: int, b: int)
    ensures Signed(s, a) * p == Signed(s, b) <==> a * p == b
  {
    assert (0 - a) * p == 0 - a * p;
  }

  /** An accepted text is read exactly if and only if it has at most 18 fractional digits or all of them
      are zero: the digit counter has 8 bits, so it passes longer fractions when it has wrapped. */
  lemma {:induction false} AcceptedIsExactIff(s: string, v: int)
    requires WellFormed(s) && |FracPart(s)| % 0x100 <= SCALE
    requires v == Signed(s, Digits(IntPart(s)) * SCALE_FACTOR + Digits(FracPart(s)) * Pow10(SCALE - |FracPart(s)| % 0x100))
    ensures Denotes(s, v) <==> |FracPart(s)| <= SCALE || Digits(FracPart(s)) == 0
  {
    hide Digits, Pow10, Signed, AllDigits, IntPart, FracPart;
    var n := |FracPart(s)|;
    var m := n % 0x100;
    var i, f := Digits(IntPart(s)), Digits(FracPart(s));
    Pow10Of18();
    Pow10Add(SCALE - m, n);
    ExactCore(i, f, Pow10(n), Pow10(SCALE - m), SCALE_FACTOR);
    SignedTimes(s, i * SCALE_FACTOR + f * Pow10(SCALE - m), Pow10(n), (i * Pow10(n) + f) * SCALE_FACTOR);
    if n > SCALE {
      Pow10Grows(SCALE, SCALE - m + n);
    }
  }

  predicate HalfByMistake(s: string) {
    && WellFormed(s) && |FracPart(s)| == 257
    && Digits(IntPart(s)) == 0 && Digits(FracPart(s)) == 5 < Pow10(|FracPart(s)| % 0x100)
    && !Denotes(s, Signed(s, 5 * Pow10(SCALE - 1)))
  }

  /** "0." followed by 256 zeros and a 5 is read as one half. */
  lemma {:induction false} WrappedCounter()
    ensures exists s: string :: HalfByMistake(s)
  {
    var f := Zeros(256) + "5";
    var s := "0." + f;
    assert Unsigned(s) == s;
    assert s[1..][0] == '.';
    assert Point(s[1..]) == 0;
    assert Point(s) == 1;
    assert IntPart(s) == "0";
    assert Digits("0") == Digits("") * 10 + 0 by { assert "0"[..0] == ""; }
    assert FracPart(s) == f;
    ZerosAreZero(256);
    assert f[..256] == Zeros(256);
    assert Digits(f) == 5;
    AcceptedIsExactIff(s, Signed(s, 5 * Pow10(SCALE - 1)));
    assert HalfByMistake(s);
  }

  lemma {:induction false} ZerosAreZero(w: nat)
    ensures AllDigits(Zeros(w)) && Digits(Zeros(w)) == 0
  {
    if w > 0 {
      assert Zeros(w)[..w - 1] == Zeros(w - 1);
      ZerosAreZero(w - 1);
    }
  }

  // ---- writing ----

  function FractionOf(abs: nat): string {
    if abs % SCALE_FACTOR == 0 then "0" else TrimZeros(FixedText(abs % SCALE_FACTOR, SCALE))
  }

  /** What to_string writes for a magnitude. */
  function MagnitudeText(abs: nat): string {
    DecText(abs / SCALE_FACTOR) + "." + FractionOf(abs)
  }

  function ToText(v: int): string {
    (if v < 0 then "-" else "") + MagnitudeText(Abs(v))
  }

  /** The digits of the integer part, collected from the right and reversed. */
  method IntegerText(n: nat) returns (s: string)
    ensures s == DecText(n)
  {
    if n == 0 { return "0"; }
    var rest := n;
    var collected := "";
    while rest > 0
      invariant n > 0
      invariant DecText(n) == if rest > 0 then DecText(rest) + Reverse(collected) else Reverse(collected)
      decreases rest
    {
      ReversePush(collected, DigitChar(rest % 10));
      collected := collected + [DigitChar(rest % 10)];
      rest := rest / 10;
    }
    s := Reverse(collected);
  }

  lemma {:induction false} ReversePush(s: string, c: char)
    ensures Reverse(s + [c]) == [c] + Reverse(s)
  {
    if s != "" {
      assert (s + [c])[1..] == s[1..] + [c];
      ReversePush(s[1..], c);
    }
  }

  /** The fraction written from the right into a buffer of 18 zeros. */
  method FractionText(n: nat) returns (s: string)
    requires n < SCALE_FACTOR
    ensures s == FixedText(n, SCALE)
  {
    assert Pow10(0) == 1;
    hide Pow10, FixedText;
    s := Zeros(SCALE);
    var rest := n;
    var i := SCALE - 1;
    Pow10Of18();
    while i >= 0 && rest > 0
      invariant -1 <= i < SCALE && |s| == SCALE && 0 <= rest < Pow10(i + 1)
      invariant s[..i + 1] == Zeros(i + 1)
      invariant FixedText(n, SCALE) == FixedText(rest, i + 1) + s[i + 1..]
      decreases i
    {
      FixedStep(rest, i);
      var c := DigitChar(rest % 10);
      assert FixedText(rest / 10, i) + ([c] + s[i + 1..]) == FixedText(rest, i + 1) + s[i + 1..];
      s := s[i := c];
      assert s[i..] == [c] + s[i + 1..];
      rest := rest / 10;
      i := i - 1;
    }
    FixedZeros(i + 1);
    assert s == s[..i + 1] + s[i + 1..];
  }

  /** to_string. Negating the most negative number is a signed overflow. */
  method ToString(v: I128) returns (s: string)
    requires v != -W127
    ensures s == ToText(v) && Canonical(s)
  {
    TextIsCanonical(v);
    hide Canonical;
    if v == 0 {
      assert DecText(0) == "0";
      return "0.0";
    }
    var abs := if v < 0 then 0 - v else v;
    var intPart, fracPart := abs / SCALE_FACTOR, abs % SCALE_FACTOR;
    var intStr := IntegerText(intPart);
    s := if v < 0 then "-" else "";
    if fracPart == 0 {
      s := s + intStr + ".0";
      assert intStr + ".0" == MagnitudeText(abs);
      return;
    }
    var fracStr := FractionText(fracPart);
    fracStr := TrimZeros(fracStr);
    s := s + intStr + "." + fracStr;
    assert intStr + "." + fracStr == MagnitudeText(abs);
  }

  // ---- the text reads back ----

  lemma {:induction false} TrimDigits(s: string)
    requires AllDigits(s)
    ensures AllDigits(TrimZeros(s)) && Digits(s) == Digits(TrimZeros(s)) * Pow10(|s| - |TrimZeros(s)|)
  {
    if s != "" && s[|s| - 1] == '0' {
      var t := s[..|s| - 1];
      TrimDigits(t);
      var d, p := Digits(TrimZeros(t)), Pow10(|t| - |TrimZeros(t)|);
      assert (d * p) * 10 == d * (10 * p);
    }
  }

  lemma {:induction false} PointBehindDigits(a: string, b: string)
    requires AllDigits(a)
    ensures Point(a + "." + b) == |a|
  {
    var s := a + "." + b;
    if a != "" {
      assert s[1..] == a[1..] + "." + b;
      PointBehindDigits(a[1..], b);
    }
  }

  /** The fraction, scaled back to 18 digits. */
  lemma {:induction false} FractionReadsBack(abs: nat)
    ensures var f := FractionOf(abs);
      && |f| <= SCALE && AllDigits(f) && Digits(f) * Pow10(SCALE - |f|) == abs % SCALE_FACTOR
  {
    var frac := abs % SCALE_FACTOR;
    Pow10Of18();
    if frac == 0 {
      assert "0"[..0] == "";
      assert Digits("0") == 0;
    } else {
      FixedDigits(frac, SCALE);
      TrimDigits(FixedText(frac, SCALE));
    }
  }

  lemma {:induction false} PartsOfText(v: int)
    ensures var s := ToText(v);
      && (Negative(s) <==> v < 0)
      && IntPart(s) == DecText(Abs(v) / SCALE_FACTOR) && FracPart(s) == FractionOf(Abs(v))
  {
    hide TrimZeros, FixedText, DecText, Point, Digits;
    var i, f := DecText(Abs(v) / SCALE_FACTOR), FractionOf(Abs(v));
    var s, b := ToText(v), i + "." + f;
    assert b == MagnitudeText(Abs(v));
    DecDigits(Abs(v) / SCALE_FACTOR);
    PointBehindDigits(i, f);
    assert IsDigit(i[0]) && b[0] == i[0];
    assert Unsigned(s) == b;
    assert b[..|i|] == i && b[|i| + 1..] == f;
  }

  const TEN_TO_38: nat := 100_000_000_000_000_000_000_000_000_000_000_000_000

  /** The number that the parts of a text make up at scale 18. */
  function ValueOf(s: string): int
    requires AllDigits(IntPart(s)) && AllDigits(FracPart(s)) && |FracPart(s)| <= SCALE
  {
    Signed(s, Digits(IntPart(s)) * SCALE_FACTOR + Digits(FracPart(s)) * Pow10(SCALE - |FracPart(s)|))
  }

  // ---- the canonical text ----

  /** An optional minus, an integer part without leading zeros, a point and a fraction of at most 18 digits without
      trailing zeros, both parts at least one digit long; and no minus in front of zero. */
  predicate Canonical(s: string) {
    var i, f := IntPart(s), FracPart(s);
    && s == (if Negative(s) then "-" else "") + i + "." + f
    && i != "" && AllDigits(i) && (|i| > 1 ==> i[0] != '0')
    && f != "" && AllDigits(f) && |f| <= 18 && (|f| > 1 ==> f[|f| - 1] != '0')
    && (Negative(s) ==> Digits(i) > 0 || Digits(f) > 0)
  }

  lemma {:induction false} DecLeading(n: nat)
    ensures |DecText(n)| > 1 ==> DecText(n)[0] != '0'
    ensures DecText(n)[0] == '0' ==> n == 0
  {
    if n >= 10 { DecLeading(n / 10); }
  }

  lemma {:induction false} TrimmedEnd(s: string)
    ensures var r := TrimZeros(s); r == "" || r[|r| - 1] != '0'
  {
    if s != "" && s[|s| - 1] == '0' { TrimmedEnd(s[..|s| - 1]); }
  }

  lemma {:induction false} FractionCanonical(abs: nat)
    ensures var f := FractionOf(abs);
      && f != "" && AllDigits(f) && |f| <= 18 && (|f| > 1 ==> f[|f| - 1] != '0')
      && (Digits(f) == 0 <==> abs % SCALE_FACTOR == 0)
  {
    hide Digits, Pow10, TrimZeros, FixedText;
    FractionReadsBack(abs);
    var f := FractionOf(abs);
    NoDigits();
    TrimmedEnd(FixedText(abs % SCALE_FACTOR, SCALE));
    if Digits(f) > 0 { MulPositive(Digits(f), Pow10(SCALE - |f|)); }
  }

  lemma {:induction false} NoDigits()
    ensures Digits("") == 0
  {
  }

  lemma {:induction false} TextIsCanonical(v: int)
    ensures Canonical(ToText(v))
  {
    hide TrimZeros, FixedText, DecText, Point, Digits, IntPart, FracPart, FractionOf;
    var n := Abs(v) / SCALE_FACTOR;
    PartsOfText(v);
    DecDigits(n);
    DecLeading(n);
    FractionCanonical(Abs(v));
    var i, f := DecText(n), FractionOf(Abs(v));
    assert (if v < 0 then "-" else "") + i + "." + f == ToText(v) by {
      assert (if v < 0 then "-" else "") + (i + "." + f) == (if v < 0 then "-" else "") + i + "." + f;
    }
  }

  lemma {:induction false} DecUnique(s: string)
    requires s != "" && AllDigits(s) && (|s| > 1 ==> s[0] != '0')
    ensures DecText(Digits(s)) == s
  {
    var p, c := s[..|s| - 1], s[|s| - 1];
    assert s == p + [c];
    if |s| == 1 {
      assert p == "";
    } else {
      DecUnique(p);
      DecLeading(Digits(p));
      assert p[0] == s[0];
      DecStep(Digits(p), c);
    }
  }

  lemma {:induction false} DecStep(n: nat, c: char)
    requires IsDigit(c) && n > 0
    ensures DecText(n * 10 + DigitValue(c)) == DecText(n) + [c]
  {
  }

  lemma {:induction false} FixedUnique(s: string)
    requires AllDigits(s)
    ensures FixedText(Digits(s), |s|) == s
  {
    if s != "" {
      FixedUnique(s[..|s| - 1]);
      assert s == s[..|s| - 1] + [s[|s| - 1]];
    }
  }

  lemma {:induction false} FixedScaled(n: nat, w: nat, k: nat)
    ensures FixedText(n * Pow10(k), w + k) == FixedText(n, w) + Zeros(k)
  {
    if k == 0 {
      assert FixedText(n, w) + Zeros(0) == FixedText(n, w);
    } else {
      var m := n * Pow10(k - 1);
      assert n * Pow10(k) == 10 * m;
      FixedScaled(n, w, k - 1);
      assert Zeros(k) == Zeros(k - 1) + ['0'];
      assert FixedText(10 * m, w + k) == FixedText(m, w + k - 1) + ['0'];
    }
  }

  lemma {:induction false} TrimPadded(s: string, k: nat)
    requires s != "" && s[|s| - 1] != '0'
    ensures TrimZeros(s + Zeros(k)) == s
  {
    if k == 0 {
      assert s + Zeros(0) == s;
    } else {
      assert (s + Zeros(k))[..|s| + k - 1] == s + Zeros(k - 1);
      TrimPadded(s, k - 1);
    }
  }

  lemma {:induction false} FractionUnique(f: string, abs: nat)
    requires f != "" && AllDigits(f) && |f| <= SCALE && (|f| > 1 ==> f[|f| - 1] != '0')
    requires abs % SCALE_FACTOR == Digits(f) * Pow10(SCALE - |f|)
    ensures FractionOf(abs) == f
  {
    hide Pow10, Digits, FixedText, TrimZeros;
    if f == "0" {
      ZeroDigit();
    } else {
      LastDigit(f);
      FixedUnique(f);
      FixedScaled(Digits(f), |f|, SCALE - |f|);
      TrimPadded(f, SCALE - |f|);
      MulPositive(Digits(f), Pow10(SCALE - |f|));
    }
  }

  lemma {:induction false} ZeroDigit()
    ensures Digits("0") == 0
  {
    assert "0"[..0] == "";
  }

  lemma {:induction false} LastDigit(f: string)
    requires f != "" && f != "0" && AllDigits(f) && (|f| > 1 ==> f[|f| - 1] != '0')
    ensures f[|f| - 1] != '0' && Digits(f) > 0
  {
    if |f| == 1 { assert f == [f[0]]; }
  }

  lemma {:induction false} MulPositive(a: nat, b: nat)
    requires a > 0 && b > 0
    ensures a * b > 0
  {
  }

  /** The printed text is the only canonical one for its value. */
  lemma {:induction false} CanonicalIsText(s: string)
    requires Canonical(s)
    ensures ToText(ValueOf(s)) == s
  {
    hide TrimZeros, FixedText, DecText, Point, IntPart, FracPart, FractionOf, Digits, Pow10;
    var i, f := IntPart(s), FracPart(s);
    var n, d := Digits(i), Digits(f) * Pow10(SCALE - |f|);
    FractionBelowOne(f);
    var abs := n * SCALE_FACTOR + d;
    DecUnique(i);
    FractionUnique(f, abs);
    if Negative(s) && Digits(f) > 0 { MulPositive(Digits(f), Pow10(SCALE - |f|)); }
    assert ToText(ValueOf(s)) == (if Negative(s) then "-" else "") + (i + "." + f);
    assert (if Negative(s) then "-" else "") + (i + "." + f) == (if Negative(s) then "-" else "") + i + "." + f;
  }

  lemma {:induction false} FractionBelowOne(f: string)
    requires AllDigits(f) && |f| <= SCALE
    ensures 0 <= Digits(f) * Pow10(SCALE - |f|) < SCALE_FACTOR
  {
    hide Pow10, Digits;
    DigitsBound(f);
    Pow10Add(|f|, SCALE - |f|);
    Pow10Of18();
    MulStrict(Digits(f), Pow10(|f|), Pow10(SCALE - |f|));
  }

  /** A plus sign says nothing and a minus sign negates. */
  lemma {:induction false} SignReads(u: string, n: int)
    requires u == "" || (u[0] != '-' && u[0] != '+')
    ensures IntPart("+" + u) == IntPart("-" + u) == IntPart(u) && FracPart("+" + u) == FracPart("-" + u) == FracPart(u)
    ensures Signed(u, n) == Signed("+" + u, n) == n && Signed("-" + u, n) == 0 - n
  {
    assert ("+" + u)[1..] == u && ("-" + u)[1..] == u;
  }

  /** Every value below 10^38 in magnitude is read back from its text; the others are refused. */
  lemma {:induction false} TextReadsBack(v: int)
    ensures var s := ToText(v);
      && AllDigits(IntPart(s)) && AllDigits(FracPart(s)) && |FracPart(s)| <= SCALE
      && (WellFormed(s) <==> Abs(v) < TEN_TO_38) && ValueOf(s) == v
  {
    hide Digits, TrimZeros, FixedText, DecText, IntPart, FracPart, FractionOf, ToText;
    var n := Abs(v) / SCALE_FACTOR;
    PartsOfText(v);
    DecDigits(n);
    DecLength(n, MAX_INTEGER_DIGITS);
    FractionReadsBack(Abs(v));
    Pow10Of18();
    assert Abs(v) == n * SCALE_FACTOR + Abs(v) % SCALE_FACTOR;
  }

  /** to_string followed by the parsing constructor. */
  method PrintThenParse(v: I128) returns (o: Outcome)
    requires v != -W127
    ensures if Abs(v) < TEN_TO_38 then o == Read(v) else o == OverflowError
  {
    hide ToText, Digits, Pow10, Signed;
    var s := ToString(v);
    TextReadsBack(v);
    o := ParseDecimal(s);
  }
}
