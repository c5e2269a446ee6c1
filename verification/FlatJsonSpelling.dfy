/** The language of the reader apart from the reader: the ways to write a tree, with white space and commas where
    they may stand. What the reader accepts, and as which tree, is exactly this. */
module FlatJsonSpelling {
  import opened Options
  import DigitText
  import opened FlatJsonLexer
  import opened FlatJsonGrammar
  import opened FlatJsonTree
  import opened FlatJsonPrinter
  import opened FlatJsonContent

  // ---- how a tree can be written ----

  /** A key with the white space around its colon. */
  datatype Key = Key(name: string, before: string, after: string)

  datatype Spelled = Scalar(kind: TokenType, v: string) | Container(keyed: bool, members: Spellings)

  /** Members with the white space in front of each, the gap behind its value and a comma or none. */
  datatype Spellings = End(ws: string) | More(ws: string, key: Option<Key>, head: Spelled, gap: string, comma: bool, tail: Spellings)

  function Spell(x: Spelled): string {
    match x
    case Scalar(kind, v) => if kind == String then "\"" + v + "\"" else v
    case Container(true, ms) => "{" + SpellAll(ms) + "}"
    case Container(false, ms) => "[" + SpellAll(ms) + "]"
  }

  function SpellKey(key: Option<Key>): string {
    if key.None? then "" else "\"" + key.value.name + "\"" + key.value.before + ":" + key.value.after
  }

  function SpellAll(ms: Spellings): string {
    match ms
    case End(ws) => ws
    case More(ws, key, head, gap, comma, tail) =>
      ws + SpellKey(key) + Spell(head) + gap + (if comma then "," else "") + SpellAll(tail)
  }

  /** The tree that is written. */
  function Erase(x: Spelled): Json<string> {
    match x
    case Scalar(kind, v) => Leaf(kind, v)
    case Container(keyed, ms) => Node(keyed, EraseAll(ms))
  }

  function EraseAll(ms: Spellings): Members<string> {
    if ms.End? then Nil
    else Cons(if ms.key.None? then None else Some(ms.key.value.name), Erase(ms.head), EraseAll(ms.tail))
  }

  predicate Blank(w: string) { forall k :: 0 <= k < |w| ==> w[k] == ' ' || w[k] == '\t' || w[k] == '\r' || w[k] == '\n' }

  ghost predicate Lexeme(kind: TokenType, v: string) {
    match kind
    case String => StringBody(v)
    case Number => FlatJsonGrammar.Number(v)
    case Bool => v == "true" || v == "false"
    case Null => v == "null"
    case _ => false
  }

  function Closing(keyed: bool): char { if keyed then '}' else ']' }

  /** Scalars are lexemes, and members have keys exactly in objects. A comma may be missing, but then a number must not
      run into the next digit; and a comma must not stand directly in front of the closing bracket. */
  ghost predicate WellSpelled(x: Spelled) {
    match x
    case Scalar(kind, v) => Lexeme(kind, v)
    case Container(keyed, ms) => WellSpelledAll(ms, keyed)
  }

  ghost predicate WellSpelledAll(ms: Spellings, keyed: bool) {
    && Blank(ms.ws)
    && (ms.More? ==>
          && Blank(ms.gap) && ms.key.Some? == keyed && (keyed ==> WellSpelledKey(ms.key.value))
          && WellSpelled(ms.head) && WellSpelledAll(ms.tail, keyed)
          && (ms.comma ==> SpellAll(ms.tail) != "")
          && (!ms.comma && ms.gap == "" ==> MayFollow(ms.head, (SpellAll(ms.tail) + [Closing(keyed)])[0])))
  }

  predicate WellSpelledKey(k: Key) { StringBody(k.name) && Blank(k.before) && Blank(k.after) }

  predicate MayFollow(x: Spelled, c: char) {
    x.Scalar? && x.kind == Number ==> !('0' <= c <= '9') && (|x.v| > 2 && x.v[1] == '0' && x.v[2] == 'x' ==> !Hex(c))
  }

  /** A document: one value, with white space around it. */
  ghost predicate IsDocument(text: string, t: Json<string>) {
    exists w, x, w' :: Blank(w) && WellSpelled(x) && Blank(w') && Erase(x) == t && text == w + Spell(x) + w'
  }

  // ---- white space ----

  predicate At(text: string, i: nat, s: string) {
    i + |s| <= |text| && text[i..i + |s|] == s
  }

  lemma {:induction false} AtConcat(text: string, i: nat, a: string, b: string)
    requires At(text, i, a + b)
    ensures At(text, i, a) && At(text, i + |a|, b)
  {
    assert (a + b)[..|a|] == a && (a + b)[|a|..] == b;
    assert text[i..i + |a|] == text[i..i + |a + b|][..|a|];
    assert text[i + |a|..i + |a| + |b|] == text[i..i + |a + b|][|a|..];
  }

  lemma {:induction false} AtFirst(text: string, i: nat, s: string)
    requires At(text, i, s) && s != ""
    ensures text[i] == s[0]
  {
    assert text[i] == text[i..i + |s|][0];
  }

  /** White space is skipped, whatever follows it. */
  lemma {:induction false} SkipBlank(text: string, i: nat, w: string)
    requires At(text, i, w) && Blank(w)
    ensures SkipWs(text, i) == SkipWs(text, i + |w|)
    decreases |w|
  {
    if w != "" {
      AtConcat(text, i, w[..1], w[1..]);
      AtFirst(text, i, w);
      assert w[..1] + w[1..] == w;
      SkipBlank(text, i + 1, w[1..]);
    }
  }

  /** And nothing else is. */
  lemma {:induction false} SkippedIsBlank(text: string, i: nat)
    requires i <= |text|
    ensures Blank(text[i..SkipWs(text, i)])
    decreases |text| - i
  {
    if i < |text| && IsWs(text[i]) {
      SkippedIsBlank(text, i + 1);
      assert text[i..SkipWs(text, i)] == [text[i]] + text[i + 1..SkipWs(text, i)];
    }
  }

  lemma {:induction false} BlankConcat(a: string, b: string)
    requires Blank(a) && Blank(b)
    ensures Blank(a + b)
  {
  }

  // ---- first characters ----

  predicate Starts(c: char) { c == '"' || c == '-' || '0' <= c <= '9' || c in {'t', 'f', 'n', '{', '['} }

  lemma {:induction false} SpellStarts(x: Spelled)
    requires WellSpelled(x)
    ensures Spell(x) != "" && Starts(Spell(x)[0]) && (x.Scalar? ==> Spell(x)[0] !in {'{', '['})
  {
    if x.Scalar? && x.kind == Number { NumberBegins(x.v); }
  }

  lemma {:induction false} NumberBegins(v: string)
    requires FlatJsonGrammar.Number(v)
    ensures v != "" && (v[0] == '-' || '0' <= v[0] <= '9')
  {
    if v[0] != '-' { NumberStart(v); }
  }

  /** Members together with the closing bracket behind them start with white space, a quote, a value or the bracket. */
  lemma {:induction false} MembersStart(ms: Spellings, keyed: bool)
    requires WellSpelledAll(ms, keyed)
    ensures var c := (SpellAll(ms) + [Closing(keyed)])[0];
      && (IsWs(c) || Starts(c) || (c == Closing(keyed) && SpellAll(ms) == ""))
      && (ms.ws == "" && ms.More? ==> Starts(c) && (keyed ==> c == '"'))
  {
    hide WellSpelled, Spell;
    if ms.More? { SpellStarts(ms.head); }
  }

  // ---- everything so written is read ----

  /** Reading yields `t` and stops at `next`. */
  ghost predicate ReadsAs(r: Parsed<Json<Span>>, text: string, t: Json<string>, next: nat) {
    r.Good? && r.next == next && Content(text, r.value) == t
  }

  ghost predicate ReadsAsAll(r: Parsed<Members<Span>>, text: string, ms: Members<string>, next: nat) {
    r.Good? && r.next == next && ContentAll(text, r.value) == ms
  }

  function ParseMembers(keyed: bool, text: string, i: nat): Parsed<Members<Span>>
    requires i <= |text|
  {
    if keyed then ParsePairs(text, i) else ParseItems(text, i)
  }

  /** Behind a number stands nothing that could go on it. */
  predicate EndsAt(x: Spelled, text: string, j: nat) {
    x.Scalar? && x.kind == Number ==> AtDelimiter(text, j, IsHex(x.v))
  }

  lemma {:induction false} ReadString(v: string, text: string, i: nat)
    requires StringBody(v) && At(text, i, "\"" + v + "\"")
    ensures ScanString(text, i + 1) == Stop(i + 1 + |v|) && text[i] == '"'
    ensures Slice(text, Span(i + 1, |v|)) == v
  {
    hide IsStringBody, ScanString, StringBody;
    BodyGrammar(v);
    AtConcat(text, i, "\"" + v, "\"");
    AtConcat(text, i, "\"", v);
    AtFirst(text, i, "\"");
    AtFirst(text, i + 1 + |v|, "\"");
    BodyScans(v, text, i + 1);
  }

  lemma {:induction false} ReadWord(kind: TokenType, v: string, text: string, i: nat)
    requires kind in {Bool, Null} && Lexeme(kind, v) && At(text, i, v)
    ensures i < |text| && ReadsAs(ParseScalar(text, i), text, Leaf(kind, v), i + |v|)
  {
    hide ScanString, ScanNumber;
    AtFirst(text, i, v);
  }

  lemma {:induction false} ReadNumber(v: string, text: string, i: nat)
    requires FlatJsonGrammar.Number(v) && At(text, i, v) && AtDelimiter(text, i + |v|, IsHex(v))
    ensures i < |text| && ReadsAs(ParseScalar(text, i), text, Leaf(Number, v), i + |v|)
  {
    hide ScanString, ScanNumber, ScanLiteral, FlatJsonGrammar.Number, IsNumber, AtDelimiter;
    NumberBegins(v);
    AtFirst(text, i, v);
    NumberGrammar(v);
    NumberScans(v, text, i);
  }

  lemma {:induction false} ReadScalar(x: Spelled, text: string, i: nat)
    requires x.Scalar? && WellSpelled(x) && At(text, i, Spell(x)) && EndsAt(x, text, i + |Spell(x)|)
    ensures i < |text| && ReadsAs(ParseScalar(text, i), text, Erase(x), i + |Spell(x)|)
  {
    hide StringBody, ScanString, ScanNumber, ScanLiteral, FlatJsonGrammar.Number, AtDelimiter;
    if x.kind == String {
      ReadString(x.v, text, i);
    } else if x.kind == Number {
      ReadNumber(x.v, text, i);
    } else {
      ReadWord(x.kind, x.v, text, i);
    }
  }

  lemma {:induction false} ScalarStart(text: string, i: nat)
    requires i < |text| && !IsWs(text[i]) && text[i] != '{' && text[i] != '['
    ensures ParseValue(text, i) == ParseScalar(text, i)
  {
    hide ParseScalar;
  }

  lemma {:induction false} ReadKey(k: Key, text: string, i: nat)
    requires WellSpelledKey(k) && At(text, i, SpellKey(Some(k)))
    ensures i < |text| && text[i] == '"' && ScanString(text, i + 1) == Stop(i + 1 + |k.name|)
    ensures Slice(text, Span(i + 1, |k.name|)) == k.name
    ensures var v := i + |SpellKey(Some(k))|;
      && Expect(text, i + 2 + |k.name|, ':') == Stop(v - |k.after|) && At(text, v - |k.after|, k.after)
  {
    hide StringBody, ScanString, SkipWs, Blank, At, SpellKey;
    KeyStands(k, text, i);
    ReadString(k.name, text, i);
    var c := i + 2 + |k.name| + |k.before|;
    SkipBlank(text, i + 2 + |k.name|, k.before);
    NotSkipped(text, c);
  }

  /** The parts of a key in the text. */
  lemma {:induction false} KeyStands(k: Key, text: string, i: nat)
    requires At(text, i, SpellKey(Some(k)))
    ensures var c := i + 2 + |k.name| + |k.before|;
      && At(text, i, "\"" + k.name + "\"") && At(text, i + 2 + |k.name|, k.before)
      && c < |text| && text[c] == ':' && At(text, c + 1, k.after) && c + 1 + |k.after| == i + |SpellKey(Some(k))| <= |text|
  {
    var quoted := "\"" + k.name + "\"";
    AtConcat(text, i, quoted + k.before + ":", k.after);
    AtConcat(text, i, quoted + k.before, ":");
    AtConcat(text, i, quoted, k.before);
    AtFirst(text, i + |quoted| + |k.before|, ":");
  }

  lemma {:induction false} ReadSpelled(x: Spelled, text: string, i: nat)
    requires WellSpelled(x) && At(text, i, Spell(x)) && EndsAt(x, text, i + |Spell(x)|)
    ensures ReadsAs(ParseValue(text, i), text, Erase(x), i + |Spell(x)|)
    decreases x, 1
  {
    if x.Scalar? {
      hide ParseValue, ParseScalar, Lexeme;
      SpellStarts(x);
      AtFirst(text, i, Spell(x));
      ReadScalar(x, text, i);
      ScalarStart(text, i);
    } else {
      ReadContainer(x, text, i);
    }
  }

  lemma {:induction false} ReadContainer(x: Spelled, text: string, i: nat)
    requires x.Container? && WellSpelled(x) && At(text, i, Spell(x))
    ensures ReadsAs(ParseValue(text, i), text, Erase(x), i + |Spell(x)|)
    decreases x, 0
  {
    hide ParseItems, ParsePairs, ParseValue, SpellAll;
    var open, close := if x.keyed then "{" else "[", [Closing(x.keyed)];
    var body := SpellAll(x.members);
    assert Spell(x) == (open + body) + close;
    AtConcat(text, i, open + body, close);
    AtConcat(text, i, open, body);
    AtFirst(text, i, open);
    AtFirst(text, i + 1 + |body|, close);
    ReadSpellings(x.members, x.keyed, text, i + 1);
    AtBracket(text, i);
  }

  /** White space in front of members does not matter. */
  lemma {:induction false} BlankThenMembers(keyed: bool, text: string, i: nat, w: string)
    requires At(text, i, w) && Blank(w)
    ensures ParseMembers(keyed, text, i) == ParseMembers(keyed, text, i + |w|)
  {
    hide ParseItems, ParsePairs;
    SkipBlank(text, i, w);
    SkipToItems(text, i);
    SkipToItems(text, i + |w|);
    SkipToPairs(text, i);
    SkipToPairs(text, i + |w|);
  }

  lemma {:induction false} BlankThenValue(text: string, i: nat, w: string)
    requires At(text, i, w) && Blank(w)
    ensures ParseValue(text, i) == ParseValue(text, i + |w|)
  {
    hide ParseItems, ParsePairs, ParseScalar;
    SkipBlank(text, i, w);
  }

  /** The parts of a member in the text. */
  lemma {:induction false} SplitMember(ms: Spellings, text: string, i: nat)
    requires ms.More? && At(text, i, SpellAll(ms))
    ensures var k := i + |ms.ws|;
      var v := k + |SpellKey(ms.key)|;
      var e := v + |Spell(ms.head)|;
      var n := e + |ms.gap| + (if ms.comma then 1 else 0);
      && At(text, i, ms.ws) && At(text, k, SpellKey(ms.key)) && At(text, v, Spell(ms.head)) && At(text, e, ms.gap)
      && (ms.comma ==> text[e + |ms.gap|] == ',') && At(text, n, SpellAll(ms.tail))
      && n + |SpellAll(ms.tail)| == i + |SpellAll(ms)|
  {
    hide SpellKey, Spell;
    var comma := if ms.comma then "," else "";
    var a := ms.ws + SpellKey(ms.key);
    var b := a + Spell(ms.head);
    AtConcat(text, i, b + ms.gap + comma, SpellAll(ms.tail));
    AtConcat(text, i, b + ms.gap, comma);
    AtConcat(text, i, b, ms.gap);
    AtConcat(text, i, a, Spell(ms.head));
    AtConcat(text, i, ms.ws, SpellKey(ms.key));
    if ms.comma { AtFirst(text, i + |b + ms.gap|, comma); }
  }

  /** Members in the text, with their closing bracket. */
  ghost predicate Stands(ms: Spellings, keyed: bool, text: string, i: nat) {
    && WellSpelledAll(ms, keyed) && At(text, i, SpellAll(ms))
    && i + |SpellAll(ms)| < |text| && text[i + |SpellAll(ms)|] == Closing(keyed)
  }

  /** The character at which members stand. */
  lemma {:induction false} StandsFirst(ms: Spellings, keyed: bool, text: string, i: nat)
    requires Stands(ms, keyed, text, i)
    ensures i < |text| && text[i] == (SpellAll(ms) + [Closing(keyed)])[0]
  {
    hide WellSpelledAll, SpellAll;
    if SpellAll(ms) != "" { AtFirst(text, i, SpellAll(ms)); }
  }

  /** Behind the white space in front of members no comma follows. */
  lemma {:induction false} NoCommaAhead(ms: Spellings, keyed: bool, text: string, i: nat)
    requires Stands(ms, keyed, text, i)
    ensures var j := SkipWs(text, i); j < |text| && text[j] != ','
  {
    hide WellSpelled, Spell, SpellKey, SkipWs;
    var k := i + |ms.ws|;
    if ms.More? {
      SplitMember(ms, text, i);
      SpellStarts(ms.head);
      KeyStarts(ms, keyed, text, k);
      NotSkipped(text, k);
    } else {
      NotSkipped(text, k);
    }
    SkipBlank(text, i, ms.ws);
  }

  lemma {:induction false} NotSkipped(text: string, i: nat)
    requires i < |text| && !IsWs(text[i])
    ensures SkipWs(text, i) == i
  {
  }

  /** A member starts with the quote of its key or with its value. */
  lemma {:induction false} KeyStarts(ms: Spellings, keyed: bool, text: string, k: nat)
    requires ms.More? && WellSpelledAll(ms, keyed)
    requires At(text, k, SpellKey(ms.key)) && At(text, k + |SpellKey(ms.key)|, Spell(ms.head))
    ensures k < |text| && Starts(text[k]) && (keyed ==> text[k] == '"')
  {
    hide WellSpelled, Spell;
    SpellStarts(ms.head);
    AtFirst(text, k + |SpellKey(ms.key)|, Spell(ms.head));
    if keyed { AtFirst(text, k, SpellKey(ms.key)); }
  }

  /** Behind a value the separator leads to the rest of the members, up to white space. */
  lemma {:induction false} ReadGap(ms: Spellings, keyed: bool, text: string, e: nat)
    requires ms.More? && WellSpelledAll(ms, keyed) && At(text, e, ms.gap)
    requires var n := e + |ms.gap| + (if ms.comma then 1 else 0);
      (ms.comma ==> e + |ms.gap| < |text| && text[e + |ms.gap|] == ',') && Stands(ms.tail, keyed, text, n)
    ensures var n := e + |ms.gap| + (if ms.comma then 1 else 0);
      var s := Separator(text, e, Closing(keyed));
      s.Stop? && s.end <= |text| && ParseMembers(keyed, text, s.end) == ParseMembers(keyed, text, n)
  {
    hide WellSpelled, Spell, ParseMembers, SkipWs, SpellAll;
    var g := e + |ms.gap|;
    SkipBlank(text, e, ms.gap);
    if ms.comma {
      NotSkipped(text, g);
      StandsFirst(ms.tail, keyed, text, g + 1);
      MembersStart(ms.tail, keyed);
    } else {
      NoCommaAhead(ms.tail, keyed, text, g);
      var s := SkipWs(text, g);
      SkippedIsBlank(text, g);
      BlankThenMembers(keyed, text, g, text[g..s]);
    }
  }

  /** Nothing goes on the value in front of a gap. */
  lemma {:induction false} GapEnds(ms: Spellings, keyed: bool, text: string, e: nat)
    requires ms.More? && WellSpelledAll(ms, keyed) && At(text, e, ms.gap)
    requires var n := e + |ms.gap| + (if ms.comma then 1 else 0);
      (ms.comma ==> e + |ms.gap| < |text| && text[e + |ms.gap|] == ',') && Stands(ms.tail, keyed, text, n)
    ensures EndsAt(ms.head, text, e)
  {
    hide WellSpelled, Spell, SpellAll;
    if ms.gap != "" {
      AtFirst(text, e, ms.gap);
    } else if !ms.comma {
      StandsFirst(ms.tail, keyed, text, e);
      MembersStart(ms.tail, keyed);
      if ms.head.Scalar? && ms.head.kind == Number { NumberKind(ms.head); }
    }
  }

  lemma {:induction false} NumberKind(x: Spelled)
    requires WellSpelled(x) && x.Scalar? && x.kind == Number
    ensures IsHex(x.v) ==> |x.v| > 2 && x.v[1] == '0' && x.v[2] == 'x'
  {
    NumberStart(x.v);
  }

  lemma {:induction false} ReadSpellings(ms: Spellings, keyed: bool, text: string, i: nat)
    requires Stands(ms, keyed, text, i)
    ensures ReadsAsAll(ParseMembers(keyed, text, i), text, EraseAll(ms), i + |SpellAll(ms)| + 1)
    decreases ms, 2
  {
    hide ParseMembers, ParseValue, Spell, SpellKey, SpellAll, Separator, WellSpelled, WellSpelledAll;
    SplitStands(ms, keyed, text, i);
    BlankThenMembers(keyed, text, i, ms.ws);
    var k := i + |ms.ws|;
    if ms.End? {
      ReadNoMembers(keyed, text, k);
    } else {
      var v := k + |SpellKey(ms.key)|;
      var e := v + |Spell(ms.head)|;
      var n := e + |ms.gap| + (if ms.comma then 1 else 0);
      GapEnds(ms, keyed, text, e);
      ReadSpelled(ms.head, text, v);
      ReadGap(ms, keyed, text, e);
      ReadSpellings(ms.tail, keyed, text, n);
      KeyStarts(ms, keyed, text, k);
      JoinMember(ms, keyed, text, k, v, Separator(text, e, Closing(keyed)).end);
    }
  }

  /** Where members stand, their parts stand. */
  lemma {:induction false} SplitStands(ms: Spellings, keyed: bool, text: string, i: nat)
    requires Stands(ms, keyed, text, i)
    ensures Blank(ms.ws) && At(text, i, ms.ws)
    ensures ms.End? ==> |SpellAll(ms)| == |ms.ws| && text[i + |ms.ws|] == Closing(keyed)
    ensures ms.More? ==>
      var k := i + |ms.ws|;
      var v := k + |SpellKey(ms.key)|;
      var e := v + |Spell(ms.head)|;
      var n := e + |ms.gap| + (if ms.comma then 1 else 0);
      && At(text, k, SpellKey(ms.key)) && At(text, v, Spell(ms.head)) && At(text, e, ms.gap)
      && (ms.comma ==> e + |ms.gap| < |text| && text[e + |ms.gap|] == ',')
      && Stands(ms.tail, keyed, text, n) && n + |SpellAll(ms.tail)| == i + |SpellAll(ms)|
      && WellSpelledAll(ms, keyed) && WellSpelled(ms.head) && (if keyed then ms.key.Some? && WellSpelledKey(ms.key.value) else ms.key.None?)
  {
    hide WellSpelled, Spell, SpellKey, WellSpelledKey;
    if ms.More? { SplitMember(ms, text, i); }
  }

  lemma {:induction false} JoinMember(ms: Spellings, keyed: bool, text: string, k: nat, v: nat, next: nat)
    requires ms.More? && k < |text| && Starts(text[k])
    requires if keyed then ms.key.Some? && WellSpelledKey(ms.key.value) else ms.key.None?
    requires At(text, k, SpellKey(ms.key)) && v == k + |SpellKey(ms.key)|
    requires next <= |text| && ValueThenRest(ms, Closing(keyed), text, v, next, ParseMembers(keyed, text, next))
    ensures ReadsAsAll(ParseMembers(keyed, text, k), text, EraseAll(ms), ParseMembers(keyed, text, next).next)
  {
    hide ParseItems, ParsePairs, SpellKey, WellSpelledKey;
    if keyed {
      JoinPair(ms, text, k, v, next);
    } else {
      NoKey(ms);
      JoinItem(ms, text, k, next);
    }
  }

  lemma {:induction false} NoKey(ms: Spellings)
    requires ms.More? && ms.key.None?
    ensures SpellKey(ms.key) == ""
  {
  }

  lemma {:induction false} ReadNoMembers(keyed: bool, text: string, i: nat)
    requires i < |text| && text[i] == Closing(keyed)
    ensures ReadsAsAll(ParseMembers(keyed, text, i), text, Nil, i + 1)
  {
    hide ParseValue, ParsePairsFrom;
  }

  /** A value at `v` with the members behind it, as read. */
  ghost predicate ValueThenRest(ms: Spellings, close: char, text: string, v: nat, next: nat, rest: Parsed<Members<Span>>) {
    && ms.More? && v <= |text| && next <= |text|
    && ParseValue(text, v).Good? && Content(text, ParseValue(text, v).value) == Erase(ms.head)
    && Separator(text, ParseValue(text, v).next, close) == Stop(next)
    && rest.Good? && ContentAll(text, rest.value) == EraseAll(ms.tail)
  }

  lemma {:induction false} JoinItem(ms: Spellings, text: string, i: nat, next: nat)
    requires ms.More? && ms.key.None? && i < |text| && Starts(text[i])
    requires next <= |text| && ValueThenRest(ms, ']', text, i, next, ParseItems(text, next))
    ensures ReadsAsAll(ParseItems(text, i), text, EraseAll(ms), ParseItems(text, next).next)
  {
    hide ParseValue, ParseItems, Separator;
    NotSkipped(text, i);
    FromItem(text, i);
    PrependIsCons(None, ParseValue(text, i).value, ParseItems(text, next));
  }

  lemma {:induction false} JoinPair(ms: Spellings, text: string, i: nat, v: nat, next: nat)
    requires ms.More? && ms.key.Some? && WellSpelledKey(ms.key.value)
    requires At(text, i, SpellKey(ms.key)) && v == i + |SpellKey(ms.key)|
    requires next <= |text| && ValueThenRest(ms, '}', text, v, next, ParsePairs(text, next))
    ensures ReadsAsAll(ParsePairs(text, i), text, EraseAll(ms), ParsePairs(text, next).next)
  {
    hide ParseValue, ParsePairs, ParsePairsFrom, ScanString, Separator, SpellKey, StringBody, Expect;
    var k := ms.key.value;
    ReadKey(k, text, i);
    AtQuote(text, i);
    BlankThenValue(text, v - |k.after|, k.after);
    FromColon(text, Span(i + 1, |k.name|), v - |k.after|);
    PrependIsCons(Some(Span(i + 1, |k.name|)), ParseValue(text, v).value, ParsePairs(text, next));
  }

  // ---- everything read is so written ----

  lemma {:induction false} ScalarSpelled(text: string, i: nat) returns (x: Spelled)
    requires i < |text| && ParseScalar(text, i).Good?
    ensures x.Scalar? && WellSpelled(x) && text[i..ParseScalar(text, i).next] == Spell(x)
    ensures Erase(x) == Content(text, ParseScalar(text, i).value)
    ensures ParseScalar(text, i).next < |text| ==> MayFollow(x, text[ParseScalar(text, i).next])
  {
    hide ScanString, ScanNumber, ScanLiteral, IsNumber, IsStringBody, StringBody, FlatJsonGrammar.Number;
    var r := ParseScalar(text, i);
    var v := Slice(text, r.value.value);
    x := Scalar(r.value.kind, v);
    if text[i] == '"' {
      ScannedStringIsBody(text, i + 1);
      BodyGrammar(v);
      assert text[i..r.next] == "\"" + v + "\"";
    } else if text[i] == '-' || DigitText.IsDigit(text[i]) {
      ScannedNumberIsNumber(text, i);
      NumberGrammar(v);
      NumberEnds(text, i);
      NumberFollow(v);
    }
  }

  lemma {:induction false} NumberFollow(v: string)
    requires FlatJsonGrammar.Number(v)
    ensures (|v| > 2 && v[1] == '0' && v[2] == 'x') <==> IsHex(v)
  {
    if v[0] != '-' {
      NumberStart(v);
      DecimalThird(v);
    } else if |v| == 2 && v[1] == '0' {
      assert !HexAt(v, 1);
    }
  }

  /** Without a minus sign no number holds an `x`. */
  lemma {:induction false} DecimalThird(v: string)
    requires FlatJsonGrammar.Number(v) && v[0] != '-'
    ensures |v| > 2 ==> v[1] != 'x' && v[2] != 'x'
  {
    var a: nat, b: nat :| DecimalParts(v, a, b);
    forall k | 0 <= k < |v| ensures v[k] != 'x' {
      if k < a {
        assert v[..a][k] == v[k];
      } else if k < b {
        assert v[a..b][k - a] == v[k];
        assert k > a ==> v[a..b][1..][k - a - 1] == v[k];
      } else {
        var e := v[b..];
        assert e[k - b] == v[k];
        assert k > b ==> e[1..][k - b - 1] == v[k];
        assert k > b + 1 ==> e[2..][k - b - 2] == v[k];
      }
    }
  }

  lemma {:induction false} Cut(text: string, a: nat, b: nat, c: nat)
    requires a <= b <= c <= |text|
    ensures text[a..c] == text[a..b] + text[b..c]
  {
  }

  /** Whatever is read as a value is one of its spellings behind white space. */
  lemma {:induction false} ValueSpelled(text: string, i: nat) returns (w: string, x: Spelled)
    requires i <= |text| && ParseValue(text, i).Good?
    ensures var r := ParseValue(text, i);
      && Blank(w) && WellSpelled(x) && text[i..r.next] == w + Spell(x) && Erase(x) == Content(text, r.value)
      && (r.next < |text| ==> MayFollow(x, text[r.next]))
    decreases |text| - i, 1
  {
    hide ParseValue, ParseScalar, ParseMembers, ParseItems, ParsePairs, Blank, Lexeme, SpellAll, WellSpelledAll, MayFollow;
    var r, j := ParseValue(text, i), SkipWs(text, i);
    w := text[i..j];
    SkippedIsBlank(text, i);
    ValueStart(text, i);
    Cut(text, i, j, r.next);
    if text[j] == '{' || text[j] == '[' {
      var keyed := text[j] == '{';
      var ms := MembersSpelled(keyed, text, j + 1);
      x := Container(keyed, ms);
      Cut(text, j, j + 1, r.next);
      assert text[j..j + 1] == [text[j]];
      assert Spell(x) == [text[j]] + (SpellAll(ms) + [Closing(keyed)]);
      assert r.next < |text| ==> MayFollow(x, text[r.next]) by { FollowsContainer(x); }
    } else {
      x := ScalarSpelled(text, j);
    }
  }

  lemma {:induction false} FollowsContainer(x: Spelled)
    requires x.Container?
    ensures forall c :: MayFollow(x, c)
  {
  }

  /** What a value is read as, from its first character. */
  lemma {:induction false} ValueStart(text: string, i: nat)
    requires i <= |text| && ParseValue(text, i).Good?
    ensures var r, j := ParseValue(text, i), SkipWs(text, i);
      && j < |text| && j < r.next <= |text|
      && if text[j] == '{' || text[j] == '[' then
           var ms := ParseMembers(text[j] == '{', text, j + 1);
           ms.Good? && r == Good(Node(text[j] == '{', ms.value), ms.next)
         else r == ParseScalar(text, j)
  {
    hide ParseScalar, ParseItems, ParsePairs;
  }

  /** The key of a member that is read, and where its value starts. */
  lemma {:induction false} MemberParts(keyed: bool, text: string, j: nat) returns (v: nat, name: string, before: string)
    requires j <= |text| && SkipWs(text, j) == j && !(j < |text| && text[j] == Closing(keyed)) && ParseMembers(keyed, text, j).Good?
    ensures var r := ParseMembers(keyed, text, j).value;
      && j <= v <= |text| && ParseValue(text, v).Good?
      && var s := Separator(text, ParseValue(text, v).next, Closing(keyed));
      && s.Stop? && ParseMembers(keyed, text, s.end).Good? && ParseMembers(keyed, text, s.end).next == ParseMembers(keyed, text, j).next
      && r.Cons? && r.head == ParseValue(text, v).value && r.tail == ParseMembers(keyed, text, s.end).value
      && (if keyed then
            text[j..v] == "\"" + name + "\"" + before + ":" && StringBody(name) && Blank(before) && SliceKey(text, r.key) == Some(name)
          else v == j && r.key.None?)
  {
    hide ParseItems, ParsePairs, ParsePairsFrom, ParseValue, Separator, ScanString, StringBody, IsStringBody, Blank;
    name, before := "", "";
    if keyed {
      SkipToPairs(text, j);
      AtQuote(text, j);
      var k := ScanString(text, j + 1).end;
      v := Expect(text, k + 1, ':').end;
      name, before := text[j + 1..k], text[k + 1..v - 1];
      FromColon(text, Span(j + 1, k - (j + 1)), v);
      ScannedStringIsBody(text, j + 1);
      BodyGrammar(name);
      SkippedIsBlank(text, k + 1);
      KeyCut(text, j, k, v);
    } else {
      v := j;
      FromItem(text, j);
    }
  }

  lemma {:induction false} KeyCut(text: string, j: nat, k: nat, v: nat)
    requires j < k && k + 1 < v <= |text| && text[j] == '"' == text[k] && text[v - 1] == ':'
    ensures text[j..v] == "\"" + text[j + 1..k] + "\"" + text[k + 1..v - 1] + ":"
  {
    var name, before := text[j + 1..k], text[k + 1..v - 1];
    Cut(text, j, j + 1, v);
    Cut(text, j + 1, k, v);
    Cut(text, k, k + 1, v);
    Cut(text, k + 1, v - 1, v);
    assert text[j..j + 1] == "\"" == text[k..k + 1] && text[v - 1..v] == ":";
    assert "\"" + (name + ("\"" + (before + ":"))) == "\"" + name + "\"" + before + ":";
  }

  /** What the separator passes over. */
  lemma {:induction false} GapSpelled(text: string, e: nat, close: char) returns (gap: string, comma: bool)
    requires e <= |text| && Separator(text, e, close).Stop?
    ensures var n := Separator(text, e, close).end;
      && text[e..n] == gap + (if comma then "," else "") && Blank(gap)
      && (comma && n < |text| ==> text[n] != close) && (!comma && gap == "" ==> n == e)
  {
    hide Blank;
    var j := SkipWs(text, e);
    gap, comma := text[e..j], j < |text| && text[j] == ',';
    SkippedIsBlank(text, e);
    if comma {
      Cut(text, e, j, j + 1);
      assert text[j..j + 1] == ",";
    } else {
      assert gap + "" == gap;
    }
  }

  /** A member in front of its gap. */
  lemma {:induction false} HeadSpelled(keyed: bool, text: string, i: nat, j: nat, v: nat, e: nat, name: string, before: string, w: string, x: Spelled)
    returns (ws: string, key: Option<Key>)
    requires i <= j <= v <= e <= |text| && Blank(text[i..j]) && Blank(w) && text[v..e] == w + Spell(x)
    requires if keyed then text[j..v] == "\"" + name + "\"" + before + ":" && StringBody(name) && Blank(before) else v == j
    ensures Blank(ws) && text[i..e] == ws + SpellKey(key) + Spell(x) && key.Some? == keyed
    ensures keyed ==> WellSpelledKey(key.value) && key.value.name == name
  {
    hide Blank, Spell, StringBody;
    Cut(text, i, j, e);
    Cut(text, j, v, e);
    if keyed {
      ws, key := text[i..j], Some(Key(name, before, w));
      var front := "\"" + name + "\"" + before + ":";
      assert SpellKey(key) == front + w;
      assert ws + (front + (w + Spell(x))) == ws + (front + w) + Spell(x);
    } else {
      ws, key := text[i..j] + w, None;
      BlankConcat(text[i..j], w);
      assert text[j..j] == "";
      assert text[i..j] + ("" + (w + Spell(x))) == (text[i..j] + w) + "" + Spell(x);
    }
  }

  lemma {:induction false} MoreText(ms: Spellings)
    requires ms.More?
    ensures SpellAll(ms) == (ms.ws + SpellKey(ms.key) + Spell(ms.head)) + (ms.gap + (if ms.comma then "," else "")) + SpellAll(ms.tail)
  {
    hide SpellKey, Spell;
  }

  lemma {:induction false} MoreWell(ms: Spellings, keyed: bool)
    requires ms.More? && Blank(ms.ws) && Blank(ms.gap) && ms.key.Some? == keyed && (keyed ==> WellSpelledKey(ms.key.value))
    requires WellSpelled(ms.head) && WellSpelledAll(ms.tail, keyed) && (ms.comma ==> SpellAll(ms.tail) != "")
    requires !ms.comma && ms.gap == "" ==> MayFollow(ms.head, (SpellAll(ms.tail) + [Closing(keyed)])[0])
    ensures WellSpelledAll(ms, keyed)
  {
    hide Blank, WellSpelledKey, WellSpelled, SpellAll, MayFollow;
  }

  /** Three neighbouring stretches of the text. */
  lemma {:induction false} Assemble(text: string, i: nat, e: nat, n: nat, end: nat, head: string, sep: string, rest: string, close: char)
    requires i <= e <= n <= end <= |text|
    requires text[i..e] == head && text[e..n] == sep && text[n..end] == rest + [close]
    ensures text[i..end] == head + sep + rest + [close]
  {
    Cut(text, i, e, end);
    Cut(text, e, n, end);
    assert head + (sep + (rest + [close])) == head + sep + rest + [close];
  }

  /** Whatever is read as members is one of their spellings with the closing bracket. */
  lemma {:induction false} MembersSpelled(keyed: bool, text: string, i: nat) returns (ms: Spellings)
    requires i <= |text| && ParseMembers(keyed, text, i).Good?
    ensures var r := ParseMembers(keyed, text, i);
      && WellSpelledAll(ms, keyed) && text[i..r.next] == SpellAll(ms) + [Closing(keyed)] && EraseAll(ms) == ContentAll(text, r.value)
    decreases |text| - i, 2
  {
    hide ParseItems, ParsePairs, ParsePairsFrom, ParseValue, Blank, Spell, SpellKey, Separator, WellSpelled, WellSpelledKey, MayFollow, StringBody, SpellAll, WellSpelledAll;
    SkipToItems(text, i);
    SkipToPairs(text, i);
    var r, j := ParseMembers(keyed, text, i), SkipWs(text, i);
    SkippedIsBlank(text, i);
    if j < |text| && text[j] == Closing(keyed) {
      ms := End(text[i..j]);
      EndWell(text[i..j], keyed);
      Cut(text, i, j, j + 1);
      assert text[j..j + 1] == [Closing(keyed)];
    } else {
      var v, name, before := MemberParts(keyed, text, j);
      var w, x := ValueSpelled(text, v);
      var e := ParseValue(text, v).next;
      var n := Separator(text, e, Closing(keyed)).end;
      var tail := MembersSpelled(keyed, text, n);
      var gap, comma := GapSpelled(text, e, Closing(keyed));
      var ws, key := HeadSpelled(keyed, text, i, j, v, e, name, before, w, x);
      ms := More(ws, key, x, gap, comma, tail);
      Assemble(text, i, e, n, r.next, ws + SpellKey(key) + Spell(x), gap + (if comma then "," else ""), SpellAll(tail), Closing(keyed));
      MoreText(ms);
      assert text[n] == text[n..r.next][0] == (SpellAll(tail) + [Closing(keyed)])[0];
      MoreWell(ms, keyed);
    }
  }

  lemma {:induction false} EndWell(w: string, keyed: bool)
    requires Blank(w)
    ensures WellSpelledAll(End(w), keyed) && SpellAll(End(w)) == w && EraseAll(End(w)) == Nil
  {
  }

  // ---- documents ----

  /** A spelling between white space is read as its tree, to its end. */
  lemma {:induction false} DocumentReads(w: string, x: Spelled, w': string)
    requires Blank(w) && WellSpelled(x) && Blank(w')
    ensures var text := w + Spell(x) + w';
      ReadsAs(ParseValue(text, 0), text, Erase(x), |w| + |Spell(x)|)
  {
    hide ParseValue, WellSpelled, Spell, SpellAll;
    var text := w + Spell(x) + w';
    assert text[0..|text|] == text;
    AtConcat(text, 0, w + Spell(x), w');
    AtConcat(text, 0, w, Spell(x));
    BlankThenValue(text, 0, w);
    if w' != "" { AtFirst(text, |w| + |Spell(x)|, w'); }
    ReadSpelled(x, text, |w|);
  }

  /** A text is read as a value with nothing but white space behind it, and as which tree, exactly if it is a document. */
  lemma {:induction false} DocumentIff(text: string, t: Json<string>)
    ensures IsDocument(text, t) <==>
      ParseValue(text, 0).Good? && Content(text, ParseValue(text, 0).value) == t && Blank(text[ParseValue(text, 0).next..])
  {
    hide ParseValue, WellSpelled, Spell, Content, Blank, Erase;
    if IsDocument(text, t) {
      var w, x, w' :| Blank(w) && WellSpelled(x) && Blank(w') && Erase(x) == t && text == w + Spell(x) + w';
      DocumentReads(w, x, w');
      assert text[|w| + |Spell(x)|..] == w';
    }
    var r := ParseValue(text, 0);
    if r.Good? && Content(text, r.value) == t && Blank(text[r.next..]) {
      var w, x := ValueSpelled(text, 0);
      Cut(text, 0, r.next, |text|);
      assert text == text[0..|text|] && text[r.next..|text|] == text[r.next..];
    }
  }

  // ---- the tight spelling ----

  /** No white space, and a comma between any two members. */
  function Tight(t: Json<string>): Spelled {
    match t
    case Leaf(kind, v) => Scalar(kind, v)
    case Node(keyed, ms) => Container(keyed, TightAll(ms))
  }

  function TightAll(ms: Members<string>): Spellings {
    if ms.Nil? then End("")
    else More("", if ms.key.None? then None else Some(Key(ms.key.value, "", "")), Tight(ms.head), "", ms.tail.Cons?, TightAll(ms.tail))
  }

  lemma {:induction false} TightIsRender(t: Json<string>)
    requires WellFormed(t)
    ensures WellSpelled(Tight(t)) && Spell(Tight(t)) == Render(t) && Erase(Tight(t)) == t
    decreases t
  {
    hide StringBody, FlatJsonGrammar.Number, IsNumber, IsStringBody;
    match t
    case Leaf(_, v) => BodyGrammar(v); NumberGrammar(v);
    case Node(keyed, ms) => TightAllIsRender(ms, keyed);
  }

  lemma {:induction false} TightAllIsRender(ms: Members<string>, keyed: bool)
    requires WellFormedAll(ms, keyed)
    ensures WellSpelledAll(TightAll(ms), keyed) && SpellAll(TightAll(ms)) == RenderAll(ms) && EraseAll(TightAll(ms)) == ms
    ensures ms.Cons? ==> RenderAll(ms) != ""
    decreases ms
  {
    hide StringBody, IsStringBody, WellSpelled, WellFormed, Spell, Render, SpellAll, WellSpelledAll, SpellKey, RenderAll, Label, MayFollow, Tight;
    RenderParts(ms);
    RenderParts(Nil);
    if ms.Nil? {
      EndWell("", keyed);
    } else {
      TightIsRender(ms.head);
      TightAllIsRender(ms.tail, keyed);
      SpellStarts(Tight(ms.head));
      if keyed { BodyGrammar(ms.key.value); }
      TightKey(ms.key);
      var x := TightAll(ms);
      MoreText(x);
      assert "" + Label(ms.key) + Render(ms.head) == Label(ms.key) + Render(ms.head);
      CloseFollows(Tight(ms.head), keyed);
      assert ms.tail.Nil? ==> SpellAll(x.tail) + [Closing(keyed)] == [Closing(keyed)];
      MoreWell(x, keyed);
    }
  }

  lemma {:induction false} RenderParts(ms: Members<string>)
    ensures RenderAll(ms) == if ms.Nil? then "" else
      (Label(ms.key) + Render(ms.head)) + (if ms.tail.Nil? then "" else ",") + RenderAll(ms.tail)
  {
    hide Label, Render;
    if ms.Cons? && ms.tail.Cons? {
      assert Label(ms.key) + Render(ms.head) + ("," + RenderAll(ms.tail)) == (Label(ms.key) + Render(ms.head)) + "," + RenderAll(ms.tail);
    }
  }

  lemma {:induction false} CloseFollows(x: Spelled, keyed: bool)
    ensures MayFollow(x, Closing(keyed))
  {
  }

  lemma {:induction false} TightKey(key: Option<string>)
    ensures SpellKey(if key.None? then None else Some(Key(key.value, "", ""))) == Label(key)
  {
  }
}
