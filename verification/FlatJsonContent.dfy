/** The bytes behind the spans of a parsed tree, and what every parsed tree looks like in them. */
module FlatJsonContent {
  import opened Options
  import DigitText
  import opened FlatJsonLexer
  import opened FlatJsonTree
  import opened FlatJsonPrinter

  // ---- content of a parsed tree ----

  function Content(text: string, t: Json<Span>): Json<string> {
    match t
    case Leaf(kind, s) => Leaf(kind, Slice(text, s))
    case Node(keyed, ms) => Node(keyed, ContentAll(text, ms))
  }

  function ContentAll(text: string, ms: Members<Span>): Members<string> {
    if ms.Nil? then Nil else Cons(SliceKey(text, ms.key), Content(text, ms.head), ContentAll(text, ms.tail))
  }

  /** Every span of the tree lies in the text. */
  predicate InText(text: string, t: Json<Span>) {
    match t
    case Leaf(_, s) => s.start + s.len <= |text|
    case Node(_, ms) => InTextAll(text, ms)
  }

  predicate InTextAll(text: string, ms: Members<Span>) {
    ms.Cons? ==>
      (ms.key.Some? ==> ms.key.value.start + ms.key.value.len <= |text|) && InText(text, ms.head) && InTextAll(text, ms.tail)
  }

  /** Whether a tree fits the narrow counters depends on its content alone. */
  lemma {:induction false} FitsByContent(text: string, t: Json<Span>, text': string, t': Json<Span>)
    requires InText(text, t) && InText(text', t') && Content(text, t) == Content(text', t')
    ensures Fits(t) == Fits(t')
    ensures t.Leaf? ==> t.value.len == t'.value.len
    ensures KeysFit(t) == KeysFit(t') && ValuesFit(t) == ValuesFit(t') && ChildsFit(t) == ChildsFit(t')
    decreases t
  {
    if t.Node? {
      FitsByContentAll(text, t.members, text', t'.members);
    } else {
      assert |Slice(text, t.value)| == t.value.len && |Slice(text', t'.value)| == t'.value.len;
    }
  }

  lemma {:induction false} FitsByContentAll(text: string, ms: Members<Span>, text': string, ms': Members<Span>)
    requires InTextAll(text, ms) && InTextAll(text', ms') && ContentAll(text, ms) == ContentAll(text', ms')
    ensures KeysFitAll(ms) == KeysFitAll(ms') && ValuesFitAll(ms) == ValuesFitAll(ms') && ChildsFitAll(ms) == ChildsFitAll(ms')
    ensures Len(ms) == Len(ms')
    decreases ms
  {
    if ms.Cons? {
      FitsByContent(text, ms.head, text', ms'.head);
      FitsByContentAll(text, ms.tail, text', ms'.tail);
      assert ms.key.Some? ==> |Slice(text, ms.key.value)| == ms.key.value.len;
      assert ms'.key.Some? ==> |Slice(text', ms'.key.value)| == ms'.key.value.len;
    }
  }

  /** Laying out a tree and looking at the bytes commute. */
  lemma {:induction false} ViewsOfFlatten(text: string, t: Json<Span>, key: Option<Span>, b: nat, parent: Link)
    ensures Size(Content(text, t)) == Size(t)
    ensures Views(text, Flatten(t, key, b, parent)) == Flatten(Content(text, t), SliceKey(text, key), b, parent)
    decreases t, 1
  {
    if t.Node? {
      ViewsOfFlattenAll(text, t.members, b + 1, b);
      ViewsAppend(text, Flatten(t, key, b, parent)[..1], FlattenAll(t.members, b + 1, b));
      ViewsAppend(text, Flatten(t, key, b, parent)[..1] + FlattenAll(t.members, b + 1, b), Flatten(t, key, b, parent)[Size(t) - 1..]);
    }
  }

  lemma {:induction false} ViewsOfFlattenAll(text: string, ms: Members<Span>, b: nat, parent: nat)
    ensures SizeAll(ContentAll(text, ms)) == SizeAll(ms) && Len(ContentAll(text, ms)) == Len(ms)
    ensures Views(text, FlattenAll(ms, b, parent)) == FlattenAll(ContentAll(text, ms), b, parent)
    decreases ms, 0
  {
    if ms.Cons? {
      ViewsOfFlatten(text, ms.head, ms.key, b, To(parent));
      ViewsOfFlattenAll(text, ms.tail, b + Size(ms.head), parent);
      ViewsAppend(text, Flatten(ms.head, ms.key, b, To(parent)), FlattenAll(ms.tail, b + Size(ms.head), parent));
    }
  }

  lemma {:induction false} ViewsAppend(text: string, a: seq<Token<Span>>, b: seq<Token<Span>>)
    ensures Views(text, a + b) == Views(text, a) + Views(text, b)
  {
  }

  // ---- well-formed content ----

  predicate IsLexeme(kind: TokenType, v: string) {
    match kind
    case String => IsStringBody(v)
    case Number => IsNumber(v)
    case Bool => v == "true" || v == "false"
    case Null => v == "null"
    case _ => false
  }

  predicate WellFormed(t: Json<string>) {
    match t
    case Leaf(kind, v) => IsLexeme(kind, v)
    case Node(keyed, ms) => WellFormedAll(ms, keyed)
  }

  predicate WellFormedAll(ms: Members<string>, keyed: bool) {
    ms.Cons? ==>
      && ms.key.Some? == keyed && (keyed ==> IsStringBody(ms.key.value))
      && WellFormed(ms.head) && WellFormedAll(ms.tail, keyed)
  }

  lemma {:induction false} WellFormedIsWellKeyed(t: Json<string>)
    requires WellFormed(t)
    ensures WellKeyed(t)
  {
    if t.Node? { WellFormedAllIsWellKeyed(t.members, t.keyed); }
  }

  lemma {:induction false} WellFormedAllIsWellKeyed(ms: Members<string>, keyed: bool)
    requires WellFormedAll(ms, keyed)
    ensures WellKeyedAll(ms, keyed)
  {
    if ms.Cons? {
      WellFormedIsWellKeyed(ms.head);
      WellFormedAllIsWellKeyed(ms.tail, keyed);
    }
  }

  // ---- everything parsed is well formed ----

  lemma {:induction false} ScalarIsWellFormed(text: string, i: nat)
    requires i < |text| && ParseScalar(text, i).Good?
    ensures WellFormed(Content(text, ParseScalar(text, i).value))
  {
    hide ScanString, ScanNumber, ScanLiteral, IsNumber, IsStringBody, SkipWs;
    if text[i] == '"' {
      ScannedStringIsBody(text, i + 1);
      assert ParseScalar(text, i).value.kind == String;
    } else if text[i] == '-' || DigitText.IsDigit(text[i]) {
      ScannedNumberIsNumber(text, i);
      assert ParseScalar(text, i).value.kind == Number;
    }
  }

  lemma {:induction false} ScalarInText(text: string, i: nat)
    requires i < |text| && ParseScalar(text, i).Good?
    ensures InText(text, ParseScalar(text, i).value)
  {
    hide ScanString, ScanNumber, ScanLiteral;
  }

  lemma {:induction false} ParsedIsWellFormed(text: string, i: nat)
    requires i <= |text| && ParseValue(text, i).Good?
    ensures WellFormed(Content(text, ParseValue(text, i).value)) && InText(text, ParseValue(text, i).value)
    decreases |text| - i, 1
  {
    hide ParseScalar, ParseItems, ParsePairs;
    var j := SkipWs(text, i);
    if text[j] == '{' {
      ParsedPairsAreWellFormed(text, j + 1);
    } else if text[j] == '[' {
      ParsedItemsAreWellFormed(text, j + 1);
    } else {
      ScalarIsWellFormed(text, j);
      ScalarInText(text, j);
    }
  }

  lemma {:induction false} ParsedItemsAreWellFormed(text: string, i: nat)
    requires i <= |text| && ParseItems(text, i).Good?
    ensures WellFormedAll(ContentAll(text, ParseItems(text, i).value), false) && InTextAll(text, ParseItems(text, i).value)
    decreases |text| - i, 2
  {
    hide ParseItems, ParseValue;
    SkipToItems(text, i);
    var j := SkipWs(text, i);
    if !(j < |text| && text[j] == ']') {
      FromItem(text, j);
      ParsedIsWellFormed(text, j);
      ParsedItemsAreWellFormed(text, Separator(text, ParseValue(text, j).next, ']').end);
    }
  }

  lemma {:induction false} ParsedPairsAreWellFormed(text: string, i: nat)
    requires i <= |text| && ParsePairs(text, i).Good?
    ensures WellFormedAll(ContentAll(text, ParsePairs(text, i).value), true) && InTextAll(text, ParsePairs(text, i).value)
    decreases |text| - i, 3
  {
    hide ParsePairs, ParseValue, ParsePairsFrom, ScanString, IsStringBody, Expect, Separator;
    SkipToPairs(text, i);
    var j := SkipWs(text, i);
    if text[j] != '}' {
      AtQuote(text, j);
      ScannedStringIsBody(text, j + 1);
      var k := ScanString(text, j + 1);
      var key := Span(j + 1, k.end - (j + 1));
      var c := Expect(text, k.end + 1, ':').end;
      FromColon(text, key, c);
      ParsedIsWellFormed(text, c);
      ParsedPairsAreWellFormed(text, Separator(text, ParseValue(text, c).next, '}').end);
    }
  }
}
