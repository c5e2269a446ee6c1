/** Lexical layer of the FlatJSON reader: what its character loops accept, as functions of the
    text and a position. The text is a C string: reading at its end yields NUL. */
module FlatJsonLexer {
  import DigitText

  /** e_fj_error_code. */
  datatype ErrorCode =
    | Fine
    | Invalid
    | Incomplete
    | NoFreeTokens
    | KlenOverflow
    | VlenOverflow
    | ChildsOverflow
  {
    predicate Syntactic() { this in {Invalid, Incomplete} }
  }

  /** A stretch of the text: the pointer and the length that a token keeps for its key and its value. */
  datatype Span = Span(start: nat, len: nat)

  /** The outcome of scanning one lexeme: the position behind it, or why there is none. */
  datatype Scan = Stop(end: nat) | Fail(ec: ErrorCode)

  const NUL: char := '\0'

  /** `*(p->js_cur)` without a bounds test. */
  function Peek(text: string, i: nat): char {
    if i < |text| then text[i] else NUL
  }

  /** The characters of `text` from `i` up to `j` stand `d` places further on in `text'`. */
  predicate Agree(text: string, i: nat, j: nat, text': string, d: int) {
    i <= j <= |text| && 0 <= i + d && j + d <= |text'| && forall k :: i <= k < j ==> text[k] == text'[k + d]
  }

  predicate IsWs(c: char) { c == ' ' || c == '\t' || c == '\r' || c == '\n' }

  predicate IsHexDigit(c: char) { DigitText.IsDigit(c) || 'A' <= c <= 'F' || 'a' <= c <= 'f' }

  /** fj_utf8_char_len: bytes 0x80..0xBF count as leading a two-byte character. */
  function Utf8Len(c: char): (n: nat)
    ensures 1 <= n <= 4
  {
    if c as int < 0x80 then 1 else if c as int < 0xE0 then 2 else if c as int < 0xF0 then 3 else 4
  }

  function SkipWs(text: string, i: nat): (j: nat)
    requires i <= |text|
    ensures i <= j <= |text|
    ensures j < |text| ==> !IsWs(text[j])
    decreases |text| - i
  {
    if i < |text| && IsWs(text[i]) then SkipWs(text, i + 1) else i
  }

  /** fj_check_and_skip. */
  function Expect(text: string, i: nat, c: char): (r: Scan)
    requires i <= |text|
    ensures r.Stop? ==> i < r.end <= |text| && text[r.end - 1] == c
    ensures r.Fail? ==> r.ec.Syntactic()
  {
    var j := SkipWs(text, i);
    if j == |text| then Fail(Incomplete) else if text[j] == c then Stop(j + 1) else Fail(Invalid)
  }

  /** fj_expect. */
  function ScanLiteral(text: string, i: nat, lit: string): (r: Scan)
    requires i <= |text|
    ensures r.Stop? ==> r.end == i + |lit| <= |text| && text[i..r.end] == lit
    ensures r.Fail? ==> r.ec.Syntactic()
  {
    if i + |lit| > |text| then Fail(Incomplete)
    else if text[i..i + |lit|] != lit then Fail(Invalid)
    else Stop(i + |lit|)
  }

  // ---- strings ----

  /** fj_escape_len: `i` is behind the backslash and `len` counts the bytes from the backslash on. */
  function EscapeLen(text: string, i: nat, len: nat): (r: Scan)
    requires 1 <= i <= |text| && len == |text| - i + 1
    ensures r.Stop? ==> 1 <= r.end <= 5 && i + r.end <= |text|
    ensures r.Fail? ==> r.ec.Syntactic()
  {
    var c := Peek(text, i);
    if c == 'u' then
      if len < 6 then Fail(Incomplete)
      else if IsHexDigit(text[i + 1]) && IsHexDigit(text[i + 2]) && IsHexDigit(text[i + 3]) && IsHexDigit(text[i + 4]) then Stop(5)
      else Fail(Invalid)
    else if c in {'"', '\\', '/', 'b', 'f', 'n', 'r', 't'} then
      if len < 2 then Fail(Incomplete) else Stop(1)
    else Fail(Invalid)
  }

  /** Position of the closing quote of a string whose contents start at `i`. */
  function ScanString(text: string, i: nat): (r: Scan)
    requires i <= |text|
    ensures r.Stop? ==> i <= r.end < |text| && text[r.end] == '"'
    ensures r.Fail? ==> r.ec.Syntactic()
    decreases |text| - i
  {
    if i == |text| then Fail(Incomplete)
    else if text[i] < ' ' then Fail(Invalid)
    else if Utf8Len(text[i]) > |text| - i then Fail(Incomplete)
    else if text[i] == '\\' then
      var n := EscapeLen(text, i + 1, |text| - i);
      if n.Fail? then n else ScanString(text, i + 1 + n.end)
    else if text[i] == '"' then Stop(i)
    else ScanString(text, i + Utf8Len(text[i]))
  }

  /** `s` can stand between two quotes. */
  predicate IsStringBody(s: string) {
    ScanString(s + "\"", 0) == Stop(|s|)
  }

  lemma {:induction false} EscapeLocal(text: string, i: nat, text': string, d: int, n: nat)
    requires 1 <= i && 1 <= i + d && Agree(text, i, i + n, text', d)
    requires EscapeLen(text, i, |text| - i + 1) == Stop(n)
    ensures EscapeLen(text', i + d, |text'| - (i + d) + 1) == Stop(n)
  {
    assert n == 5 ==> forall k :: i < k < i + 5 ==> text[k] == text'[k + d];
  }

  /** Scanning a string looks at nothing behind its closing quote. */
  lemma {:induction false} ScanStringLocal(text: string, i: nat, text': string, d: int, e: nat)
    requires i <= e < |text| && Agree(text, i, e + 1, text', d)
    requires ScanString(text, i) == Stop(e)
    ensures ScanString(text', i + d) == Stop(e + d)
    decreases e - i
  {
    hide EscapeLen;
    if text[i] == '\\' {
      var m := EscapeLen(text, i + 1, |text| - i).end;
      EscapeLocal(text, i + 1, text', d, m);
      ScanStringLocal(text, i + 1 + m, text', d, e);
    } else if text[i] != '"' {
      ScanStringLocal(text, i + Utf8Len(text[i]), text', d, e);
    }
  }

  lemma {:induction false} ScannedStringIsBody(text: string, i: nat)
    requires i <= |text| && ScanString(text, i).Stop?
    ensures IsStringBody(text[i..ScanString(text, i).end])
  {
    var e := ScanString(text, i).end;
    var d := -(i as int);
    ScanStringLocal(text, i, text[i..e] + "\"", d, e);
  }

  lemma {:induction false} BodyScans(s: string, text: string, i: nat)
    requires IsStringBody(s)
    requires i + |s| < |text| && text[i..i + |s|] == s && text[i + |s|] == '"'
    ensures ScanString(text, i) == Stop(i + |s|)
  {
    assert forall k :: 0 <= k < |s| ==> s[k] == text[i..i + |s|][k];
    ScanStringLocal(s + "\"", 0, text, i, |s|);
  }

  // ---- numbers ----

  predicate InRun(c: char, hex: bool) { if hex then IsHexDigit(c) else DigitText.IsDigit(c) }

  /** End of the longest run of digits starting at `i`. */
  function Run(text: string, i: nat, hex: bool): (j: nat)
    requires i <= |text|
    ensures i <= j <= |text|
    ensures j < |text| ==> !InRun(text[j], hex)
    decreases |text| - i
  {
    if i < |text| && InRun(text[i], hex) then Run(text, i + 1, hex) else i
  }

  /** A run that must not be empty. */
  function ScanRun(text: string, i: nat, hex: bool): (r: Scan)
    requires i <= |text|
    ensures r.Stop? ==> i < r.end <= |text|
    ensures r.Fail? ==> r.ec.Syntactic()
  {
    if i == |text| then Fail(Incomplete)
    else if !InRun(text[i], hex) then Fail(Invalid)
    else Stop(Run(text, i, hex))
  }

  function ScanFraction(text: string, i: nat): (r: Scan)
    requires i <= |text|
    ensures r.Stop? ==> i <= r.end <= |text|
    ensures r.Fail? ==> r.ec.Syntactic()
  {
    if i < |text| && text[i] == '.' then ScanRun(text, i + 1, false) else Stop(i)
  }

  function ScanExponent(text: string, i: nat): (r: Scan)
    requires i <= |text|
    ensures r.Stop? ==> i <= r.end <= |text|
    ensures r.Fail? ==> r.ec.Syntactic()
  {
    if i < |text| && (text[i] == 'e' || text[i] == 'E') then
      if i + 1 == |text| then Fail(Incomplete)
      else ScanRun(text, if text[i + 1] == '+' || text[i + 1] == '-' then i + 2 else i + 1, false)
    else Stop(i)
  }

  function ScanDecimal(text: string, i: nat): (r: Scan)
    requires i <= |text|
    ensures r.Stop? ==> i < r.end <= |text|
    ensures r.Fail? ==> r.ec.Syntactic()
  {
    var whole := ScanRun(text, i, false);
    if whole.Fail? then whole else
    var frac := ScanFraction(text, whole.end);
    if frac.Fail? then frac else ScanExponent(text, frac.end)
  }

  /** What follows the sign: a hexadecimal run behind `0x`, or a decimal with fraction and exponent. */
  function ScanMagnitude(text: string, i: nat): (r: Scan)
    requires i <= |text|
    ensures r.Stop? ==> i < r.end <= |text|
    ensures r.Fail? ==> r.ec.Syntactic()
  {
    if i + 1 < |text| && text[i] == '0' && text[i + 1] == 'x' then
      ScanRun(text, i + 2, true)
    else
      ScanDecimal(text, i)
  }

  /** fj_parse_number, called with `i` at a minus sign or a digit. */
  function ScanNumber(text: string, i: nat): (r: Scan)
    requires i < |text|
    ensures r.Stop? ==> i < r.end <= |text|
    ensures r.Fail? ==> r.ec.Syntactic()
  {
    var m := ScanMagnitude(text, if text[i] == '-' then i + 1 else i);
    if m.Stop? && m.end - i > 1 && text[i] == '0' && text[i + 1] != '.' then Fail(Invalid) else m
  }

  predicate IsNumber(s: string) {
    s != "" && (s[0] == '-' || DigitText.IsDigit(s[0])) && ScanNumber(s, 0) == Stop(|s|)
  }

  /** At `i` the text ends, or a character stands there that cannot go on a number whose last digits are of this kind. */
  predicate AtDelimiter(text: string, i: nat, hex: bool) {
    i >= |text| || (!InRun(text[i], hex) && text[i] !in {'.', 'e', 'E', 'x'})
  }

  predicate HexAt(text: string, i: nat) { i + 1 < |text| && text[i] == '0' && text[i + 1] == 'x' }

  /** The digits of this number are hexadecimal. */
  predicate IsHex(s: string) { s != "" && HexAt(s, if s[0] == '-' then 1 else 0) }

  lemma {:induction false} RunLocal(text: string, i: nat, j: nat, text': string, d: int, hex: bool)
    requires Agree(text, i, j, text', d) && AtDelimiter(text', j + d, hex)
    requires Run(text, i, hex) <= j
    ensures Run(text', i + d, hex) == Run(text, i, hex) + d
    decreases j - i
  {
    if i < j && InRun(text[i], hex) {
      RunLocal(text, i + 1, j, text', d, hex);
    }
  }

  lemma {:induction false} ExponentLocal(text: string, i: nat, j: nat, text': string, d: int)
    requires Agree(text, i, j, text', d) && AtDelimiter(text', j + d, false)
    requires ScanExponent(text, i) == Stop(j)
    ensures ScanExponent(text', i + d) == Stop(j + d)
  {
    if i < j {
      RunLocal(text, if text[i + 1] == '+' || text[i + 1] == '-' then i + 2 else i + 1, j, text', d, false);
    }
  }

  lemma {:induction false} FractionLocal(text: string, i: nat, j: nat, text': string, d: int)
    requires Agree(text, i, j, text', d) && AtDelimiter(text', j + d, false)
    requires ScanFraction(text, i).Stop? && ScanFraction(text, i).end <= j
    ensures ScanFraction(text', i + d) == Stop(ScanFraction(text, i).end + d)
  {
    if i < |text| && text[i] == '.' {
      RunLocal(text, i + 1, j, text', d, false);
    }
  }

  lemma {:induction false} DecimalLocal(text: string, i: nat, j: nat, text': string, d: int)
    requires Agree(text, i, j, text', d) && AtDelimiter(text', j + d, false)
    requires ScanDecimal(text, i) == Stop(j)
    ensures ScanDecimal(text', i + d) == Stop(j + d)
  {
    var whole := Run(text, i, false);
    var frac := ScanFraction(text, whole).end;
    RunLocal(text, i, j, text', d, false);
    FractionLocal(text, whole, j, text', d);
    ExponentLocal(text, frac, j, text', d);
  }

  lemma {:induction false} MagnitudeLocal(text: string, i: nat, j: nat, text': string, d: int)
    requires Agree(text, i, j, text', d) && AtDelimiter(text', j + d, HexAt(text, i))
    requires ScanMagnitude(text, i) == Stop(j)
    ensures ScanMagnitude(text', i + d) == Stop(j + d)
  {
    if i + 1 < |text| && text[i] == '0' && text[i + 1] == 'x' {
      RunLocal(text, i + 2, j, text', d, true);
    } else {
      DecimalLocal(text, i, j, text', d);
    }
  }

  /** Scanning a number looks at its own characters and at whether a delimiter follows. */
  lemma {:induction false} NumberLocal(text: string, i: nat, j: nat, text': string, d: int)
    requires i < |text| && Agree(text, i, j, text', d) && AtDelimiter(text', j + d, HexAt(text, if text[i] == '-' then i + 1 else i))
    requires ScanNumber(text, i) == Stop(j)
    ensures ScanNumber(text', i + d) == Stop(j + d)
  {
    MagnitudeLocal(text, if text[i] == '-' then i + 1 else i, j, text', d);
  }

  lemma {:induction false} ScannedNumberIsNumber(text: string, i: nat)
    requires i < |text| && (text[i] == '-' || DigitText.IsDigit(text[i])) && ScanNumber(text, i).Stop?
    ensures IsNumber(text[i..ScanNumber(text, i).end])
  {
    var d := -(i as int);
    NumberLocal(text, i, ScanNumber(text, i).end, text[i..ScanNumber(text, i).end], d);
  }

  lemma {:induction false} NumberScans(s: string, text: string, i: nat)
    requires IsNumber(s) && i + |s| <= |text| && text[i..i + |s|] == s && AtDelimiter(text, i + |s|, IsHex(s))
    ensures ScanNumber(text, i) == Stop(i + |s|)
  {
    assert forall k :: 0 <= k < |s| ==> s[k] == text[i..i + |s|][k];
    NumberLocal(s, 0, |s|, text, i);
  }

  /** No number stops in front of a digit that could go on it. */
  lemma {:induction false} NumberEnds(text: string, i: nat)
    requires i < |text| && ScanNumber(text, i).Stop?
    ensures var j := ScanNumber(text, i).end;
      j < |text| ==> !InRun(text[j], IsHex(text[i..j]))
  {
    var k, j := if text[i] == '-' then i + 1 else i, ScanNumber(text, i).end;
    var s := text[i..j];
    assert forall m :: i <= m < j ==> s[m - i] == text[m];
    if HexAt(text, k) {
      assert s[k - i] == text[k] && s[k + 1 - i] == text[k + 1];
    } else {
      DecimalEnds(text, k);
      assert k + 1 < j ==> s[k + 1 - i] == text[k + 1];
    }
  }

  lemma {:induction false} DecimalEnds(text: string, i: nat)
    requires i <= |text| && ScanDecimal(text, i).Stop?
    ensures var j := ScanDecimal(text, i).end; j < |text| ==> !InRun(text[j], false)
  {
    hide Run;
  }
}
