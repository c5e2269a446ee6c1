/** What the two syntax errors of the reader mean: an incomplete text ends too early, and an invalid one cannot be
    saved by what might follow. */
module FlatJsonErrors {
  import DigitText
  import opened FlatJsonLexer
  import opened FlatJsonTree

  predicate Extends(text': string, text: string) {
    |text| <= |text'| && forall k :: 0 <= k < |text| ==> text'[k] == text[k]
  }

  // ---- invalid is final ----

  lemma {:induction false} SkipWsExt(text: string, text': string, i: nat)
    requires Extends(text', text) && i <= |text|
    ensures SkipWs(text, i) < |text| ==> SkipWs(text', i) == SkipWs(text, i)
    ensures SkipWs(text, i) == |text| ==> SkipWs(text', i) == SkipWs(text', |text|)
    decreases |text| - i
  {
    if i < |text| && IsWs(text[i]) { SkipWsExt(text, text', i + 1); }
  }

  lemma {:induction false} LiteralExt(text: string, text': string, i: nat, lit: string)
    requires Extends(text', text) && i <= |text| && i + |lit| <= |text|
    ensures ScanLiteral(text', i, lit) == ScanLiteral(text, i, lit)
  {
    assert text'[i..i + |lit|] == text[i..i + |lit|];
  }

  lemma {:induction false} RunExt(text: string, text': string, i: nat, hex: bool)
    requires Extends(text', text) && i <= |text|
    ensures Run(text, i, hex) < |text| ==> Run(text', i, hex) == Run(text, i, hex)
    ensures Run(text, i, hex) == |text| ==> Run(text', i, hex) == Run(text', |text|, hex)
    decreases |text| - i
  {
    if i < |text| && InRun(text[i], hex) { RunExt(text, text', i + 1, hex); }
  }

  /** A scan that stopped in front of some character, or failed on one, does so in every longer text. */
  ghost predicate Settled(text: string, r: Scan, r': Scan) {
    (r.Stop? && r.end < |text| ==> r' == r) && (r == Fail(Invalid) ==> r' == r)
  }

  lemma {:induction false} ScanRunExt(text: string, text': string, i: nat, hex: bool)
    requires Extends(text', text) && i <= |text|
    ensures Settled(text, ScanRun(text, i, hex), ScanRun(text', i, hex))
  {
    hide Run;
    RunExt(text, text', i, hex);
  }

  lemma {:induction false} ExponentExt(text: string, text': string, i: nat)
    requires Extends(text', text) && i <= |text|
    ensures Settled(text, ScanExponent(text, i), ScanExponent(text', i))
  {
    hide ScanRun;
    if i + 1 < |text| {
      ScanRunExt(text, text', i + 1, false);
      ScanRunExt(text, text', i + 2, false);
    }
  }

  lemma {:induction false} DecimalExt(text: string, text': string, i: nat)
    requires Extends(text', text) && i <= |text|
    ensures Settled(text, ScanDecimal(text, i), ScanDecimal(text', i))
  {
    hide ScanRun, ScanExponent;
    NothingBehind(text);
    ScanRunExt(text, text', i, false);
    var whole := ScanRun(text, i, false);
    if whole.Stop? && whole.end < |text| {
      ScanRunExt(text, text', whole.end + 1, false);
      var frac := ScanFraction(text, whole.end);
      if frac.Stop? { ExponentExt(text, text', frac.end); }
    }
  }

  lemma {:induction false} NothingBehind(text: string)
    ensures ScanFraction(text, |text|) == Stop(|text|) && ScanExponent(text, |text|) == Stop(|text|)
  {
  }

  lemma {:induction false} MagnitudeExt(text: string, text': string, i: nat)
    requires Extends(text', text) && i <= |text|
    ensures Settled(text, ScanMagnitude(text, i), ScanMagnitude(text', i))
  {
    hide ScanRun, ScanDecimal;
    if i + 1 < |text| {
      ScanRunExt(text, text', i + 2, true);
      DecimalExt(text, text', i);
    } else {
      DecimalExt(text, text', i);
      ShortMagnitude(text, text', i);
    }
  }

  /** With at most one character left a magnitude ends with the text or fails at once. */
  lemma {:induction false} ShortMagnitude(text: string, text': string, i: nat)
    requires Extends(text', text) && i <= |text| <= i + 1
    ensures Settled(text, ScanMagnitude(text, i), ScanMagnitude(text', i))
  {
  }

  lemma {:induction false} NumberExt(text: string, text': string, i: nat)
    requires Extends(text', text) && i < |text|
    ensures var r, r' := ScanNumber(text, i), ScanNumber(text', i);
      (r.Stop? && r.end < |text| ==> r' == r) && (r == Fail(Invalid) ==> r'.Fail?)
  {
    hide ScanMagnitude;
    var k := if text[i] == '-' then i + 1 else i;
    MagnitudeExt(text, text', k);
    var m, m' := ScanMagnitude(text, k), ScanMagnitude(text', k);
    if m.Stop? && m.end - i > 1 && text[i] == '0' && text[i + 1] != '.' && m'.Stop? {
      LongMagnitude(text, text', i);
    }
  }

  lemma {:induction false} LongMagnitude(text: string, text': string, i: nat)
    requires Extends(text', text) && i < |text| && ScanMagnitude(text, i).Stop? && ScanMagnitude(text, i).end - i > 1
    requires ScanMagnitude(text', i).Stop?
    ensures ScanMagnitude(text', i).end - i > 1
  {
    if ScanMagnitude(text, i).end == |text| {
      hide Run;
      RunExt(text, text', i, false);
      RunLength(text, i);
      RunLength(text', i);
    } else {
      hide ScanMagnitude;
      MagnitudeExt(text, text', i);
    }
  }

  lemma {:induction false} RunLength(text: string, i: nat)
    requires i + 1 < |text|
    ensures InRun(text[i], false) && InRun(text[i + 1], false) ==> Run(text, i, false) > i + 1
    ensures InRun(text[i], false) && !InRun(text[i + 1], false) ==> Run(text, i, false) == i + 1
  {
    if InRun(text[i], false) {
      assert Run(text, i, false) == Run(text, i + 1, false);
      if InRun(text[i + 1], false) { assert Run(text, i + 1, false) == Run(text, i + 2, false); }
    }
  }

  /** A string that stops behind a backslash is called invalid; with a character to follow it is incomplete. */
  lemma {:induction false} StringExt(text: string, text': string, i: nat)
    requires Extends(text', text) && i <= |text|
    ensures var r, r' := ScanString(text, i), ScanString(text', i);
      (r.Stop? ==> r' == r) && (r == Fail(Invalid) ==> r' == r || ScanString(text + "n", i) == Fail(Incomplete))
    decreases |text| - i
  {
    hide EscapeLen;
    if i < |text| && text[i] >= ' ' && Utf8Len(text[i]) <= |text| - i {
      if text[i] == '\\' {
        EscapeExt(text, text', i + 1);
        EscapeExt(text, text + "n", i + 1);
        var n := EscapeLen(text, i + 1, |text| - i);
        if n.Stop? {
          StringExt(text, text', i + 1 + n.end);
        } else if i + 1 == |text| {
          EscapeN(text);
          assert ScanString(text + "n", i) == ScanString(text + "n", i + 2) == Fail(Incomplete);
        }
      } else if text[i] != '"' {
        StringExt(text, text', i + Utf8Len(text[i]));
      }
    }
  }

  lemma {:induction false} EscapeExt(text: string, text': string, i: nat)
    requires Extends(text', text) && 1 <= i <= |text|
    ensures var n, n' := EscapeLen(text, i, |text| - i + 1), EscapeLen(text', i, |text'| - i + 1);
      (n.Stop? ==> n' == n) && (n == Fail(Invalid) && i < |text| ==> n' == n)
  {
  }

  lemma {:induction false} EscapeN(text: string)
    requires text != ""
    ensures EscapeLen(text + "n", |text|, 2) == Stop(1)
  {
  }

  /** A result in a longer text: what was read stays read, and what was invalid stays unreadable, unless the text stops
      behind a backslash and one more character makes it incomplete. */
  ghost predicate Stays<T(!new)>(r: Parsed<T>, r': Parsed<T>, cut: Parsed<T>) {
    r == Bad(Invalid) ==> r'.Bad? || cut == Bad(Incomplete)
  }

  lemma {:induction false} ScalarExt(text: string, text': string, i: nat)
    requires Extends(text', text) && i < |text|
    ensures var r, r' := ParseScalar(text, i), ParseScalar(text', i);
      (r.Good? && r.next < |text| ==> r' == r) && Stays(r, r', ParseScalar(text + "n", i))
  {
    hide ScanString, ScanNumber, ScanLiteral;
    if text[i] == 'n' {
      WordExt(text, text', i, "null");
    } else if text[i] == 't' {
      WordExt(text, text', i, "true");
    } else if text[i] == 'f' {
      WordExt(text, text', i, "false");
    } else if text[i] == '-' || DigitText.IsDigit(text[i]) {
      NumberExt(text, text', i);
    } else if text[i] == '"' {
      StringExt(text, text', i + 1);
    }
  }

  lemma {:induction false} WordExt(text: string, text': string, i: nat, lit: string)
    requires Extends(text', text) && i <= |text|
    ensures Settled(text, ScanLiteral(text, i, lit), ScanLiteral(text', i, lit))
  {
    if i + |lit| <= |text| { LiteralExt(text, text', i, lit); }
  }

  lemma {:induction false} ValueExt(text: string, text': string, i: nat)
    requires Extends(text', text) && i <= |text|
    ensures var r, r' := ParseValue(text, i), ParseValue(text', i);
      && (r.Good? && (r.next < |text| || r.value.Node?) ==> r' == r)
      && Stays(r, r', ParseValue(text + "n", i))
    decreases |text| - i, 1
  {
    hide ParseScalar, ParseItems, ParsePairs;
    var j, text'' := SkipWs(text, i), text + "n";
    SkipWsExt(text, text', i);
    SkipWsExt(text, text'', i);
    if j < |text| {
      if text[j] == '{' {
        PairsExt(text, text', j + 1);
      } else if text[j] == '[' {
        ItemsExt(text, text', j + 1);
      } else {
        ScalarExt(text, text', j);
      }
    }
  }

  lemma {:induction false} SeparatorExt(text: string, text': string, i: nat, close: char)
    requires Extends(text', text) && i <= |text| && close != NUL
    ensures var s, s' := Separator(text, i, close), Separator(text', i, close);
      (s.Stop? && s.end < |text| ==> s' == s) && (s.Fail? ==> s' == s)
  {
    SkipWsExt(text, text', i);
  }

  lemma {:induction false} AtTheEnd(text: string)
    ensures ParseValue(text, |text|) == Bad(Incomplete) && ParseItems(text, |text|) == Bad(Incomplete) && ParsePairs(text, |text|) == Bad(Incomplete)
    ensures forall c :: Separator(text, |text|, c) == Stop(|text|)
  {
  }

  lemma {:induction false} ExpectExt(text: string, text': string, i: nat, c: char)
    requires Extends(text', text) && i <= |text|
    ensures var r, r' := Expect(text, i, c), Expect(text', i, c);
      (r.Stop? ==> r' == r) && (r == Fail(Invalid) ==> r' == r)
  {
    SkipWsExt(text, text', i);
  }

  lemma {:induction false} ItemsExt(text: string, text': string, i: nat)
    requires Extends(text', text) && i <= |text|
    ensures var r, r' := ParseItems(text, i), ParseItems(text', i);
      (r.Good? ==> r' == r) && Stays(r, r', ParseItems(text + "n", i))
    decreases |text| - i, 2
  {
    hide ParseItems, ParseValue, Separator;
    var j, text'' := SkipWs(text, i), text + "n";
    SkipToItems(text, i); SkipToItems(text', i); SkipToItems(text'', i);
    SkipWsExt(text, text', i);
    SkipWsExt(text, text'', i);
    AtTheEnd(text);
    if j < |text| && text[j] != ']' {
      FromItem(text, j); FromItem(text', j); FromItem(text'', j);
      ValueExt(text, text', j);
      ValueExt(text, text'', j);
      var v := ParseValue(text, j);
      if v.Good? && v.next < |text| {
        SeparatorExt(text, text', v.next, ']');
        SeparatorExt(text, text'', v.next, ']');
        var s := Separator(text, v.next, ']');
        if s.Stop? && s.end < |text| { ItemsExt(text, text', s.end); }
      }
    }
  }

  lemma {:induction false} PairsExt(text: string, text': string, i: nat)
    requires Extends(text', text) && i <= |text|
    ensures var r, r' := ParsePairs(text, i), ParsePairs(text', i);
      (r.Good? ==> r' == r) && Stays(r, r', ParsePairs(text + "n", i))
    decreases |text| - i, 3
  {
    hide ParsePairs, ParsePairsFrom, ParseItems, ParseValue, ScanString, Expect, SkipWs;
    var j, text'' := SkipWs(text, i), text + "n";
    SkipToPairs(text, i); SkipToPairs(text', i); SkipToPairs(text'', i);
    SkipWsExt(text, text', i);
    SkipWsExt(text, text'', i);
    AtTheEnd(text);
    if j < |text| && text[j] == '"' {
      AtQuote(text, j); AtQuote(text', j); AtQuote(text'', j);
      StringExt(text, text', j + 1);
      StringExt(text, text'', j + 1);
      var k := ScanString(text, j + 1);
      if k.Stop? {
        ExpectExt(text, text', k.end + 1, ':');
        ExpectExt(text, text'', k.end + 1, ':');
        var c := Expect(text, k.end + 1, ':');
        if c.Stop? { PairsFromExt(text, text', Span(j + 1, k.end - (j + 1)), c.end); }
      }
    } else if j < |text| && text[j] != '}' {
      NoQuote(text, j); NoQuote(text', j); NoQuote(text'', j);
    }
  }

  lemma {:induction false} PairsFromExt(text: string, text': string, key: Span, i: nat)
    requires Extends(text', text) && i <= |text|
    ensures var r, r' := ParsePairsFrom(text, key, i), ParsePairsFrom(text', key, i);
      (r.Good? ==> r' == r) && Stays(r, r', ParsePairsFrom(text + "n", key, i))
    decreases |text| - i, 4
  {
    hide ParsePairs, ParsePairsFrom, ParseValue, Separator;
    var text'' := text + "n";
    AtTheEnd(text);
    FromColon(text, key, i); FromColon(text', key, i); FromColon(text'', key, i);
    ValueExt(text, text', i);
    ValueExt(text, text'', i);
    var v := ParseValue(text, i);
    if v.Good? && v.next < |text| {
      SeparatorExt(text, text', v.next, '}');
      SeparatorExt(text, text'', v.next, '}');
      var s := Separator(text, v.next, '}');
      if s.Stop? && s.end < |text| { PairsExt(text, text', s.end); }
    }
  }

  /** A text called invalid is not accepted however it goes on, unless it stops behind a backslash inside a string: then
      one more character makes it incomplete. */
  lemma {:induction false} InvalidIsFinal(text: string, more: string)
    requires ParseValue(text, 0) == Bad(Invalid)
    ensures ParseValue(text + more, 0).Bad? || ParseValue(text + "n", 0) == Bad(Incomplete)
  {
    hide ParseValue;
    ValueExt(text, text + more, 0);
  }

  // ---- incomplete is at the end ----

  /** Characters that nothing can go on with. */
  const JUNK: string := "\U{1}\U{1}\U{1}\U{1}\U{1}\U{1}"

  lemma {:induction false} JunkAhead(text: string)
    ensures var t := text + JUNK; |t| == |text| + 6 && Extends(t, text) && forall k :: |text| <= k < |t| ==> t[k] == '\U{1}'
  {
  }

  lemma {:induction false} RunAtJunk(text: string, i: nat, hex: bool)
    requires i < |text| && text[i] == '\U{1}'
    ensures Run(text, i, hex) == i && ScanRun(text, i, hex) == Fail(Invalid) && SkipWs(text, i) == i
  {
  }

  /** A scan that ended with the text ends there too if junk follows, and one that missed something finds the junk. */
  ghost predicate Resolved(text: string, r: Scan, r': Scan) {
    if r.Stop? then r' == r else r' == Fail(Invalid)
  }

  lemma {:induction false} ScanRunJunk(text: string, i: nat, hex: bool)
    requires i <= |text|
    ensures Resolved(text, ScanRun(text, i, hex), ScanRun(text + JUNK, i, hex))
  {
    hide Run;
    var t := text + JUNK;
    JunkAhead(text);
    RunAtJunk(t, |text|, hex);
    RunExt(text, t, i, hex);
  }

  lemma {:induction false} ExponentJunk(text: string, i: nat)
    requires i <= |text|
    ensures Resolved(text, ScanExponent(text, i), ScanExponent(text + JUNK, i))
  {
    hide ScanRun;
    JunkAhead(text);
    if i < |text| {
      ScanRunJunk(text, i + 1, false);
      if i + 1 < |text| { ScanRunJunk(text, i + 2, false); } else { RunAtJunk(text + JUNK, i + 1, false); }
    }
  }

  lemma {:induction false} DecimalJunk(text: string, i: nat)
    requires i <= |text|
    ensures Resolved(text, ScanDecimal(text, i), ScanDecimal(text + JUNK, i))
  {
    hide ScanRun, ScanExponent;
    JunkAhead(text);
    ScanRunJunk(text, i, false);
    var whole := ScanRun(text, i, false);
    if whole.Stop? {
      if whole.end < |text| { ScanRunJunk(text, whole.end + 1, false); }
      var frac := ScanFraction(text, whole.end);
      if frac.Stop? { ExponentJunk(text, frac.end); }
    }
  }

  lemma {:induction false} NumberJunk(text: string, i: nat)
    requires i < |text|
    ensures Resolved(text, ScanNumber(text, i), ScanNumber(text + JUNK, i))
  {
    hide ScanRun, ScanDecimal;
    JunkAhead(text);
    var k := if text[i] == '-' then i + 1 else i;
    if k + 1 < |text| { ScanRunJunk(text, k + 2, true); }
    DecimalJunk(text, k);
  }

  lemma {:induction false} StringJunk(text: string, i: nat)
    requires i <= |text|
    ensures ScanString(text, i).Fail? ==> ScanString(text + JUNK, i) == Fail(Invalid)
    decreases |text| - i
  {
    hide EscapeLen;
    var t := text + JUNK;
    JunkAhead(text);
    if i < |text| && text[i] >= ' ' && text[i] != '"' {
      if text[i] == '\\' {
        EscapeJunk(text, i + 1);
        var n := EscapeLen(text, i + 1, |text| - i);
        if n.Stop? { StringJunk(text, i + 1 + n.end); }
      } else if Utf8Len(text[i]) <= |text| - i {
        StringJunk(text, i + Utf8Len(text[i]));
      } else {
        assert ScanString(t, i + Utf8Len(text[i])) == Fail(Invalid);
      }
    }
  }

  lemma {:induction false} EscapeJunk(text: string, i: nat)
    requires 1 <= i <= |text|
    ensures Resolved(text, EscapeLen(text, i, |text| - i + 1), EscapeLen(text + JUNK, i, |text + JUNK| - i + 1))
  {
    JunkAhead(text);
  }

  lemma {:induction false} WordJunk(text: string, i: nat, lit: string)
    requires i < |text| && |lit| <= 5 && forall k :: 0 <= k < |lit| ==> lit[k] != '\U{1}'
    ensures Resolved(text, ScanLiteral(text, i, lit), ScanLiteral(text + JUNK, i, lit))
  {
    var t := text + JUNK;
    JunkAhead(text);
    if i + |lit| <= |text| {
      LiteralExt(text, t, i, lit);
    } else {
      assert t[i..i + |lit|][|lit| - 1] == t[i + |lit| - 1] == '\U{1}';
    }
  }

  /** A parse that ended with the text ends there too if junk follows, and one that missed something finds the junk. */
  ghost predicate ResolvedAs<T(!new)>(r: Parsed<T>, r': Parsed<T>) {
    if r.Good? then r' == r else r'== Bad(Invalid)
  }

  lemma {:induction false} ScalarJunk(text: string, i: nat)
    requires i < |text|
    ensures ResolvedAs(ParseScalar(text, i), ParseScalar(text + JUNK, i))
  {
    hide ScanString, ScanNumber, ScanLiteral;
    JunkAhead(text);
    if text[i] == 'n' {
      WordJunk(text, i, "null");
    } else if text[i] == 't' {
      WordJunk(text, i, "true");
    } else if text[i] == 'f' {
      WordJunk(text, i, "false");
    } else if text[i] == '-' || DigitText.IsDigit(text[i]) {
      NumberJunk(text, i);
    } else if text[i] == '"' {
      StringJunk(text, i + 1);
      StringExt(text, text + JUNK, i + 1);
    }
  }

  lemma {:induction false} AtJunk(text: string, i: nat)
    requires i < |text| && text[i] == '\U{1}'
    ensures SkipWs(text, i) == i
    ensures ParseValue(text, i) == Bad(Invalid) && ParseItems(text, i) == Bad(Invalid) && ParsePairs(text, i) == Bad(Invalid)
    ensures forall c :: Separator(text, i, c) == Stop(i) && (c != '\U{1}' ==> Expect(text, i, c) == Fail(Invalid))
  {
  }

  lemma {:induction false} ValueJunk(text: string, i: nat)
    requires i <= |text|
    ensures ResolvedAs(ParseValue(text, i), ParseValue(text + JUNK, i))
    decreases |text| - i, 1
  {
    hide ParseScalar, ParseItems, ParsePairs;
    var j, t := SkipWs(text, i), text + JUNK;
    JunkAhead(text);
    SkipWsExt(text, t, i);
    AtJunk(t, |text|);
    if j < |text| {
      if text[j] == '{' {
        PairsJunk(text, j + 1);
      } else if text[j] == '[' {
        ItemsJunk(text, j + 1);
      } else {
        ScalarJunk(text, j);
      }
    }
  }

  lemma {:induction false} SeparatorJunk(text: string, i: nat, close: char)
    requires i <= |text| && close in {']', '}'}
    ensures Resolved(text, Separator(text, i, close), Separator(text + JUNK, i, close))
  {
    var t := text + JUNK;
    JunkAhead(text);
    SkipWsExt(text, t, i);
    RunAtJunk(t, |text|, false);
  }

  lemma {:induction false} ItemsJunk(text: string, i: nat)
    requires i <= |text|
    ensures ResolvedAs(ParseItems(text, i), ParseItems(text + JUNK, i))
    decreases |text| - i, 2
  {
    hide ParseItems, ParseValue, Separator;
    var j, t := SkipWs(text, i), text + JUNK;
    JunkAhead(text);
    SkipToItems(text, i); SkipToItems(t, i);
    SkipWsExt(text, t, i);
    AtTheEnd(text);
    AtJunk(t, |text|);
    if j < |text| && text[j] != ']' {
      FromItem(text, j); FromItem(t, j);
      ValueJunk(text, j);
      var v := ParseValue(text, j);
      if v.Good? {
        SeparatorJunk(text, v.next, ']');
        var s := Separator(text, v.next, ']');
        if s.Stop? { ItemsJunk(text, s.end); }
      }
    }
  }

  lemma {:induction false} PairsJunk(text: string, i: nat)
    requires i <= |text|
    ensures ResolvedAs(ParsePairs(text, i), ParsePairs(text + JUNK, i))
    decreases |text| - i, 3
  {
    hide ParsePairs, ParsePairsFrom, ScanString, Expect;
    var j, t := SkipWs(text, i), text + JUNK;
    JunkAhead(text);
    SkipToPairs(text, i); SkipToPairs(t, i);
    SkipWsExt(text, t, i);
    AtTheEnd(text);
    AtJunk(t, |text|);
    if j < |text| && text[j] == '"' {
      AtQuote(text, j); AtQuote(t, j);
      StringJunk(text, j + 1);
      StringExt(text, t, j + 1);
      var k := ScanString(text, j + 1);
      if k.Stop? {
        ExpectJunk(text, k.end + 1);
        var c := Expect(text, k.end + 1, ':');
        if c.Stop? { PairsFromJunk(text, Span(j + 1, k.end - (j + 1)), c.end); }
      }
    } else if j < |text| && text[j] != '}' {
      NoQuote(text, j); NoQuote(t, j);
    }
  }

  lemma {:induction false} ExpectJunk(text: string, i: nat)
    requires i <= |text|
    ensures Resolved(text, Expect(text, i, ':'), Expect(text + JUNK, i, ':'))
  {
    var t := text + JUNK;
    JunkAhead(text);
    SkipWsExt(text, t, i);
    RunAtJunk(t, |text|, false);
  }

  lemma {:induction false} PairsFromJunk(text: string, key: Span, i: nat)
    requires i <= |text|
    ensures ResolvedAs(ParsePairsFrom(text, key, i), ParsePairsFrom(text + JUNK, key, i))
    decreases |text| - i, 4
  {
    hide ParsePairs, ParsePairsFrom, ParseValue, Separator;
    var t := text + JUNK;
    AtTheEnd(text);
    FromColon(text, key, i); FromColon(t, key, i);
    ValueJunk(text, i);
    var v := ParseValue(text, i);
    if v.Good? {
      SeparatorJunk(text, v.next, '}');
      var s := Separator(text, v.next, '}');
      if s.Stop? { PairsJunk(text, s.end); }
    }
  }

  /** A text is called incomplete only because it ends: with junk behind it, it is invalid. */
  lemma {:induction false} IncompleteIsCutOff(text: string)
    requires ParseValue(text, 0) == Bad(Incomplete)
    ensures ParseValue(text + JUNK, 0) == Bad(Invalid)
  {
    hide ParseValue;
    ValueJunk(text, 0);
  }
}
