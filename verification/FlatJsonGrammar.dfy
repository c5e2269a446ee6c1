/** The lexemes of the FlatJSON reader as a grammar, apart from the loops that scan them. */
module FlatJsonGrammar {
  import DigitText
  import opened FlatJsonLexer

  // ---- strings ----

  predicate Plain(c: char) { ' ' <= c && c as int < 0x80 && c != '"' && c != '\\' }

  /** Plain characters, short escapes, `\u` with four hexadecimal digits, and multi-byte characters, whose
      continuation bytes may be anything. */
  predicate StringBody(s: string) {
    || s == ""
    || (Plain(s[0]) && StringBody(s[1..]))
    || (|s| >= 2 && s[0] == '\\' && s[1] in {'"', '\\', '/', 'b', 'f', 'n', 'r', 't'} && StringBody(s[2..]))
    || (|s| >= 6 && s[0] == '\\' && s[1] == 'u' && AllHex(s[2..6]) && StringBody(s[6..]))
    || (|s| >= 2 && 0x80 <= s[0] as int < 0xE0 && StringBody(s[2..]))
    || (|s| >= 3 && 0xE0 <= s[0] as int < 0xF0 && StringBody(s[3..]))
    || (|s| >= 4 && 0xF0 <= s[0] as int && StringBody(s[4..]))
  }

  predicate Hex(c: char) { '0' <= c <= '9' || 'A' <= c <= 'F' || 'a' <= c <= 'f' }

  predicate AllHex(s: string) { forall k :: 0 <= k < |s| ==> Hex(s[k]) }

  lemma {:induction false} BodyFrom(s: string, i: nat)
    requires i <= |s|
    ensures ScanString(s + "\"", i) == Stop(|s|) <==> StringBody(s[i..])
    decreases |s| - i
  {
    var text, rest := s + "\"", s[i..];
    if i < |s| {
      assert rest[0] == text[i];
      if text[i] == '\\' {
        EscapeFrom(s, i);
      } else {
        var n := Utf8Len(text[i]);
        if i + n <= |s| {
          BodyFrom(s, i + n);
          assert rest[n..] == s[i + n..];
        } else if text[i] >= ' ' && i + n == |text| {
          assert ScanString(text, |text|).Fail?;
        }
      }
    }
  }

  /** The same at a backslash. */
  lemma {:induction false} EscapeFrom(s: string, i: nat)
    requires i < |s| && s[i] == '\\'
    ensures ScanString(s + "\"", i) == Stop(|s|) <==> StringBody(s[i..])
    decreases |s| - i, 0
  {
    var text, rest := s + "\"", s[i..];
    var n := EscapeLen(text, i + 1, |text| - i);
    if n.Stop? {
      var j := i + 1 + n.end;
      assert ScanString(text, i) == ScanString(text, j);
      if j <= |s| {
        BodyFrom(s, j);
        assert rest[j - i..] == s[j..];
        assert rest[1] == text[i + 1];
        if n.end == 5 {
          assert forall k :: 0 <= k < 4 ==> rest[2..6][k] == text[i + 2 + k];
        }
      } else {
        assert ScanString(text, |text|).Fail?;
        if StringBody(rest) { EscapeFits(s, i); assert false; }
      }
    } else if StringBody(rest) {
      EscapeFits(s, i);
      assert false;
    }
  }

  /** The first escape of a string body ends in front of the closing quote. */
  lemma {:induction false} EscapeFits(s: string, i: nat)
    requires i < |s| && s[i] == '\\' && StringBody(s[i..])
    ensures var n := EscapeLen(s + "\"", i + 1, |s| + 1 - i);
      n.Stop? && i + 1 + n.end <= |s|
  {
    var text, rest := s + "\"", s[i..];
    assert rest[1] == text[i + 1];
    if rest[1] == 'u' {
      assert forall k :: 2 <= k < 6 ==> rest[k] == rest[2..6][k - 2] && rest[k] == text[i + k];
    }
  }

  /** What the string loop accepts between quotes is the grammar. */
  lemma {:induction false} BodyGrammar(s: string)
    ensures IsStringBody(s) <==> StringBody(s)
  {
    BodyFrom(s, 0);
    assert s[0..] == s;
  }

  // ---- numbers ----

  predicate DigitRun(s: string, hex: bool) {
    s != "" && forall k :: 0 <= k < |s| ==> if hex then Hex(s[k]) else '0' <= s[k] <= '9'
  }

  predicate Fraction(s: string) { s == "" || (s[0] == '.' && DigitRun(s[1..], false)) }

  predicate Exponent(s: string) {
    || s == ""
    || ((s[0] == 'e' || s[0] == 'E')
        && (DigitRun(s[1..], false) || (|s| > 1 && (s[1] == '+' || s[1] == '-') && DigitRun(s[2..], false))))
  }

  predicate DecimalParts(s: string, a: nat, b: nat) {
    a <= b <= |s| && DigitRun(s[..a], false) && Fraction(s[a..b]) && Exponent(s[b..])
  }

  ghost predicate Decimal(s: string) { exists a: nat, b: nat :: DecimalParts(s, a, b) }

  predicate Hexadecimal(s: string) { |s| > 2 && s[0] == '0' && s[1] == 'x' && DigitRun(s[2..], true) }

  /** Behind a minus sign any decimal or hexadecimal; without one only decimals, and none with a leading zero unless
      the point follows it. */
  ghost predicate Number(s: string) {
    s != "" &&
    if s[0] == '-' then Decimal(s[1..]) || Hexadecimal(s[1..])
    else Decimal(s) && (|s| > 1 && s[0] == '0' ==> s[1] == '.')
  }

  lemma {:induction false} RunEnds(text: string, i: nat, j: nat, hex: bool)
    requires i <= j <= |text|
    ensures Run(text, i, hex) == j <==> (forall k :: i <= k < j ==> InRun(text[k], hex)) && (j < |text| ==> !InRun(text[j], hex))
    decreases |text| - i
  {
    if i < |text| && InRun(text[i], hex) {
      if i < j { RunEnds(text, i + 1, j, hex); }
    }
  }

  lemma {:induction false} RunGrammar(text: string, i: nat, j: nat, hex: bool)
    requires i <= j <= |text|
    ensures ScanRun(text, i, hex) == Stop(j) <==> DigitRun(text[i..j], hex) && (j < |text| ==> !InRun(text[j], hex))
  {
    hide Run;
    RunEnds(text, i, j, hex);
    var s := text[i..j];
    assert forall k :: i <= k < j ==> text[k] == s[k - i];
    assert forall k :: 0 <= k < |s| ==> s[k] == text[i + k];
  }

  lemma {:induction false} ExponentGrammar(text: string, i: nat)
    requires i <= |text|
    ensures ScanExponent(text, i) == Stop(|text|) <==> Exponent(text[i..])
  {
    hide ScanRun, DigitRun;
    var s := text[i..];
    if i < |text| {
      RunGrammar(text, i + 1, |text|, false);
      assert s[1..] == text[i + 1..|text|] == text[i + 1..];
      if i + 1 < |text| {
        RunGrammar(text, i + 2, |text|, false);
        assert s[1] == text[i + 1] && s[2..] == text[i + 2..|text|];
        if s[1] == '+' || s[1] == '-' { NoRun(s[1..]); }
      } else {
        NoRun(s[1..]);
      }
    }
  }

  lemma {:induction false} NoRun(s: string)
    requires s == "" || s[0] in {'+', '-', '.', 'e', 'E', 'x'}
    ensures !DigitRun(s, false)
  {
  }

  lemma {:induction false} FractionGrammar(text: string, i: nat, j: nat)
    requires i <= j <= |text| && (j == |text| || text[j] == 'e' || text[j] == 'E')
    ensures ScanFraction(text, i) == Stop(j) <==> Fraction(text[i..j]) && (i == j ==> !(i < |text| && text[i] == '.'))
  {
    hide ScanRun, DigitRun;
    if i < j {
      RunGrammar(text, i + 1, j, false);
      assert text[i..j][1..] == text[i + 1..j];
    }
  }

  /** The parts of a decimal are where the scanner stops. */
  lemma {:induction false} PartsScan(text: string, i: nat, a: nat, b: nat)
    requires i <= a <= b <= |text| && DecimalParts(text[i..], a - i, b - i)
    ensures ScanDecimal(text, i) == Stop(|text|)
  {
    hide ScanRun, DigitRun, ScanFraction, ScanExponent;
    var s := text[i..];
    assert s[..a - i] == text[i..a] && s[a - i..b - i] == text[a..b] && s[b - i..] == text[b..];
    assert b < |text| ==> text[b..][0] == text[b];
    assert a < b ==> text[a..b][0] == text[a];
    RunGrammar(text, i, a, false);
    FractionGrammar(text, a, b);
    ExponentGrammar(text, b);
  }

  lemma {:induction false} ScanParts(text: string, i: nat)
    requires i <= |text| && ScanDecimal(text, i) == Stop(|text|)
    ensures Decimal(text[i..])
  {
    hide ScanRun, DigitRun, ScanFraction, ScanExponent, Fraction, Exponent;
    var a := ScanRun(text, i, false).end;
    var b := ScanFraction(text, a).end;
    var s := text[i..];
    RunGrammar(text, i, a, false);
    ExponentGrammar(text, b);
    ExponentStart(text[b..]);
    FractionGrammar(text, a, b);
    assert s[..a - i] == text[i..a] && s[a - i..b - i] == text[a..b] && s[b - i..] == text[b..];
    assert DecimalParts(s, a - i, b - i);
  }

  lemma {:induction false} ExponentStart(s: string)
    requires Exponent(s)
    ensures s == "" || s[0] == 'e' || s[0] == 'E'
  {
  }

  lemma {:induction false} DecimalGrammar(text: string, i: nat)
    requires i <= |text|
    ensures ScanDecimal(text, i) == Stop(|text|) <==> Decimal(text[i..])
  {
    hide ScanDecimal, DecimalParts;
    if Decimal(text[i..]) {
      var a: nat, b: nat :| DecimalParts(text[i..], a, b);
      PartsInside(text[i..], a, b);
      PartsScan(text, i, i + a, i + b);
    }
    if ScanDecimal(text, i) == Stop(|text|) { ScanParts(text, i); }
  }

  lemma {:induction false} PartsInside(s: string, a: nat, b: nat)
    requires DecimalParts(s, a, b)
    ensures a <= b <= |s| && s != "" && (|s| > 1 ==> s[1] != 'x') && DigitText.IsDigit(s[0])
  {
    assert s[..a][0] == s[0];
    if |s| > 1 {
      if a > 1 {
        assert s[..a][1] == s[1];
      } else if b > 1 {
        assert s[a..b][0] == s[1];
      } else {
        assert s[b..][0] == s[1];
      }
    }
  }

  lemma {:induction false} MagnitudeGrammar(text: string, i: nat)
    requires i <= |text|
    ensures ScanMagnitude(text, i) == Stop(|text|) <==> Decimal(text[i..]) || Hexadecimal(text[i..])
  {
    hide ScanDecimal, ScanRun, DigitRun, DecimalParts;
    var s := text[i..];
    DecimalGrammar(text, i);
    if Decimal(s) {
      var a: nat, b: nat :| DecimalParts(s, a, b);
      PartsInside(s, a, b);
    }
    if i + 1 < |text| {
      assert s[0] == text[i] && s[1] == text[i + 1] && s[2..] == text[i + 2..|text|];
      RunGrammar(text, i + 2, |text|, true);
      assert s[2..] == "" ==> !DigitRun(s[2..], true) by { EmptyRun(); }
    }
  }

  lemma {:induction false} EmptyRun()
    ensures !DigitRun("", true)
  {
  }

  /** What the number branches accept is the grammar; in particular a hexadecimal number needs a minus sign. */
  lemma {:induction false} NumberGrammar(s: string)
    ensures IsNumber(s) <==> Number(s)
  {
    hide ScanMagnitude, DecimalParts, DigitRun;
    if s != "" {
      MagnitudeGrammar(s, 1);
      MagnitudeGrammar(s, 0);
      assert s[0..] == s;
      NumberStart(s);
    }
  }

  lemma {:induction false} NumberStart(s: string)
    requires s != ""
    ensures Decimal(s) || Hexadecimal(s) ==> DigitText.IsDigit(s[0])
    ensures Hexadecimal(s) ==> |s| > 1 && s[0] == '0' && s[1] == 'x'
  {
    if Decimal(s) {
      var a: nat, b: nat :| DecimalParts(s, a, b);
      PartsInside(s, a, b);
    }
  }
}
