/** The language the FlatJSON reader accepts, as a tree-building function, and the flat token
    layout of a tree. `S` is what a token keeps of the text: a `Span`, or the bytes themselves. */
module FlatJsonTree {
  import opened Options
  import DigitText
  import opened FlatJsonLexer

  /** e_fj_token_type. */
  datatype TokenType = InvalidType | String | Number | Bool | Null | Object | ObjectEnd | Array | ArrayEnd

  /** A pointer to a token, as an index into the storage. */
  datatype Link = Nowhere | To(index: nat)

  /** fj_token. A null `__key` or `__val` pointer is `None`. */
  datatype Token<+S> = Token(kind: TokenType, key: Option<S>, val: Option<S>, parent: Link, childs: nat, end: Link)

  predicate IsSimple(t: TokenType) { t in {String, Number, Bool, Null} }

  datatype Json<+S> =
    | Leaf(kind: TokenType, value: S)
    | Node(keyed: bool, members: Members<S>)

  /** The children of a node in order. Members of an object have a key, items of an array have none. */
  datatype Members<+S> = Nil | Cons(key: Option<S>, head: Json<S>, tail: Members<S>)

  function Len<S>(ms: Members<S>): nat {
    if ms.Nil? then 0 else 1 + Len(ms.tail)
  }

  function Append<S>(a: Members<S>, b: Members<S>): Members<S> {
    if a.Nil? then b else Cons(a.key, a.head, Append(a.tail, b))
  }

  // ---- the accepted language ----

  datatype Parsed<+T> = Good(value: T, next: nat) | Bad(ec: ErrorCode)

  function LeafAt(kind: TokenType, start: nat, s: Scan): (r: Parsed<Json<Span>>)
    requires s.Stop? ==> start <= s.end
    ensures r.Good? <==> s.Stop?
  {
    if s.Fail? then Bad(s.ec) else Good(Leaf(kind, Span(start, s.end - start)), s.end)
  }

  /** fj_parse_value. */
  function ParseValue(text: string, i: nat): (r: Parsed<Json<Span>>)
    requires i <= |text|
    ensures r.Good? ==> i < r.next <= |text|
    ensures r.Bad? ==> r.ec.Syntactic()
    decreases |text| - i, 1
  {
    var j := SkipWs(text, i);
    if j == |text| then Bad(Incomplete)
    else if text[j] == '{' then
      var ms := ParsePairs(text, j + 1);
      if ms.Bad? then Bad(ms.ec) else Good(Node(true, ms.value), ms.next)
    else if text[j] == '[' then
      var ms := ParseItems(text, j + 1);
      if ms.Bad? then Bad(ms.ec) else Good(Node(false, ms.value), ms.next)
    else
      ParseScalar(text, j)
  }

  /** The scalar cases of fj_parse_value; `i` is behind the white space. */
  function ParseScalar(text: string, i: nat): (r: Parsed<Json<Span>>)
    requires i < |text|
    ensures r.Good? ==> i < r.next <= |text| && r.value.Leaf?
    ensures r.Bad? ==> r.ec.Syntactic()
  {
    if text[i] == 'n' then LeafAt(Null, i, ScanLiteral(text, i, "null"))
    else if text[i] == 't' then LeafAt(Bool, i, ScanLiteral(text, i, "true"))
    else if text[i] == 'f' then LeafAt(Bool, i, ScanLiteral(text, i, "false"))
    else if text[i] == '-' || DigitText.IsDigit(text[i]) then LeafAt(Number, i, ScanNumber(text, i))
    else if text[i] == '"' then
      var s := ScanString(text, i + 1);
      if s.Fail? then Bad(s.ec) else Good(Leaf(String, Span(i + 1, s.end - (i + 1))), s.end + 1)
    else Bad(Invalid)
  }

  /** Behind a value: a comma may follow, but not directly the closing bracket behind it. */
  function Separator(text: string, i: nat, close: char): (r: Scan)
    requires i <= |text|
    ensures r.Stop? ==> i <= r.end <= |text|
    ensures r.Fail? ==> r.ec.Syntactic()
  {
    var j := SkipWs(text, i);
    if j < |text| && text[j] == ',' then
      if Peek(text, j + 1) == close then Fail(Invalid) else Stop(j + 1)
    else Stop(j)
  }

  /** The loop of fj_parse_array, from `i` to behind the closing bracket. */
  function ParseItems(text: string, i: nat): (r: Parsed<Members<Span>>)
    requires i <= |text|
    ensures r.Good? ==> i < r.next <= |text|
    ensures r.Bad? ==> r.ec.Syntactic()
    decreases |text| - i, 2
  {
    var j := SkipWs(text, i);
    if j < |text| && text[j] == ']' then Good(Nil, j + 1) else
    var v := ParseValue(text, j);
    if v.Bad? then Bad(v.ec) else
    var s := Separator(text, v.next, ']');
    if s.Fail? then Bad(s.ec) else
    Prepend(Cons(None, v.value, Nil), ParseItems(text, s.end))
  }

  /** The loop of fj_parse_object, from `i` to behind the closing brace. */
  function ParsePairs(text: string, i: nat): (r: Parsed<Members<Span>>)
    requires i <= |text|
    ensures r.Good? ==> i < r.next <= |text|
    ensures r.Bad? ==> r.ec.Syntactic()
    decreases |text| - i, 2
  {
    var j := SkipWs(text, i);
    if j == |text| then Bad(Incomplete)
    else if text[j] == '}' then Good(Nil, j + 1)
    else if text[j] != '"' then Bad(Invalid) else
    var k := ScanString(text, j + 1);
    if k.Fail? then Bad(k.ec) else
    var c := Expect(text, k.end + 1, ':');
    if c.Fail? then Bad(c.ec) else ParsePairsFrom(text, Span(j + 1, k.end - (j + 1)), c.end)
  }

  /** The same behind the colon of a member with this key. */
  function ParsePairsFrom(text: string, key: Span, i: nat): (r: Parsed<Members<Span>>)
    requires i <= |text|
    ensures r.Good? ==> i < r.next <= |text|
    ensures r.Bad? ==> r.ec.Syntactic()
    decreases |text| - i, 3
  {
    var v := ParseValue(text, i);
    if v.Bad? then Bad(v.ec) else
    var s := Separator(text, v.next, '}');
    if s.Fail? then Bad(s.ec) else Prepend(Cons(Some(key), v.value, Nil), ParsePairs(text, s.end))
  }

  /** White space in front of the members does not matter, and a closing bracket ends them. */
  lemma {:induction false} SkipToItems(text: string, i: nat)
    requires i <= |text|
    ensures var j := SkipWs(text, i);
      && SkipWs(text, j) == j && ParseItems(text, i) == ParseItems(text, j)
      && (j < |text| && text[j] == ']' ==> ParseItems(text, j) == Good(Nil, j + 1))
  {
    hide ParseValue, Separator, Prepend;
    SkipTwice(text, i);
  }

  lemma {:induction false} SkipToPairs(text: string, i: nat)
    requires i <= |text|
    ensures var j := SkipWs(text, i);
      && SkipWs(text, j) == j && ParsePairs(text, i) == ParsePairs(text, j)
      && (ParsePairs(text, i).Good? ==> j < |text| && (text[j] == '}' || text[j] == '"'))
      && (j < |text| && text[j] == '}' ==> ParsePairs(text, j) == Good(Nil, j + 1))
  {
    hide ParsePairsFrom, ScanString, Expect;
    SkipTwice(text, i);
  }

  lemma {:induction false} SkipTwice(text: string, i: nat)
    requires i <= |text|
    ensures SkipWs(text, SkipWs(text, i)) == SkipWs(text, i)
  {
  }

  /** What an opening bracket stands for. */
  lemma {:induction false} AtBracket(text: string, i: nat)
    requires i < |text| && text[i] in {'[', '{'}
    ensures var ms := if text[i] == '{' then ParsePairs(text, i + 1) else ParseItems(text, i + 1);
      ParseValue(text, i) == if ms.Bad? then Bad(ms.ec) else Good(Node(text[i] == '{', ms.value), ms.next)
  {
    hide ParseItems, ParsePairs;
  }

  /** What a quote stands for: a string value, or the key of a member. */
  lemma {:induction false} AtQuote(text: string, i: nat)
    requires i < |text| && text[i] == '"'
    ensures var k := ScanString(text, i + 1);
      && (k.Fail? ==> ParseValue(text, i) == Bad(k.ec) && ParsePairs(text, i) == Bad(k.ec))
      && (k.Stop? ==>
            var key := Span(i + 1, k.end - (i + 1));
            var c := Expect(text, k.end + 1, ':');
            && ParseValue(text, i) == Good(Leaf(String, key), k.end + 1)
            && ParsePairs(text, i) == (if c.Fail? then Bad(c.ec) else ParsePairsFrom(text, key, c.end)))
  {
    hide ParsePairsFrom, ParseItems, ScanString, Expect;
  }

  lemma {:induction false} MemberAtQuote(text: string, i: nat)
    requires i < |text| && text[i] == '"' && ParsePairs(text, i).Good?
    ensures var r := ParsePairs(text, i).value;
      var k := ScanString(text, i + 1);
      k.Stop? && r.Cons? && r.key == Some(Span(i + 1, k.end - (i + 1)))
  {
    hide ParsePairs, ParsePairsFrom, ParseValue;
    AtQuote(text, i);
    var k := ScanString(text, i + 1);
    var c := Expect(text, k.end + 1, ':');
    FromColon(text, Span(i + 1, k.end - (i + 1)), c.end);
  }

  lemma {:induction false} NoQuote(text: string, i: nat)
    requires i <= |text| && SkipWs(text, i) == i && (i < |text| ==> text[i] != '}' && text[i] != '"')
    ensures ParsePairs(text, i) == Bad(if i == |text| then Incomplete else Invalid)
  {
  }

  lemma {:induction false} FromColon(text: string, key: Span, i: nat)
    requires i <= |text|
    ensures var v := ParseValue(text, i);
      var r := ParsePairsFrom(text, key, i);
      && (v.Bad? ==> r == Bad(v.ec))
      && (r.Good? ==> v.Good? && r.value.Cons? && r.value.key == Some(key) && r.value.head == v.value)
      && (v.Good? ==>
            var s := Separator(text, v.next, '}');
            && r == (if s.Fail? then Bad(s.ec) else Prepend(Cons(Some(key), v.value, Nil), ParsePairs(text, s.end)))
            && (r.Good? ==> s.Stop? && ParsePairs(text, s.end).Good?
                            && r.value == Cons(Some(key), v.value, ParsePairs(text, s.end).value)))
  {
    hide ParseValue, ParsePairs, Append, Separator;
    var v := ParseValue(text, i);
    if v.Good? && Separator(text, v.next, '}').Stop? {
      PrependIsCons(Some(key), v.value, ParsePairs(text, Separator(text, v.next, '}').end));
    }
  }

  lemma {:induction false} FromItem(text: string, i: nat)
    requires i <= |text| && SkipWs(text, i) == i && !(i < |text| && text[i] == ']')
    ensures var v := ParseValue(text, i);
      var r := ParseItems(text, i);
      && (v.Bad? ==> r == Bad(v.ec))
      && (v.Good? ==>
            var s := Separator(text, v.next, ']');
            && r == (if s.Fail? then Bad(s.ec) else Prepend(Cons(None, v.value, Nil), ParseItems(text, s.end)))
            && (r.Good? ==> s.Stop? && ParseItems(text, s.end).Good?
                            && r.value == Cons(None, v.value, ParseItems(text, s.end).value)))
  {
    hide ParseValue, Append, Separator;
    var v := ParseValue(text, i);
    if v.Good? && Separator(text, v.next, ']').Stop? {
      PrependIsCons(None, v.value, ParseItems(text, Separator(text, v.next, ']').end));
    }
  }

  lemma {:induction false} PrependIsCons<S>(key: Option<S>, t: Json<S>, r: Parsed<Members<S>>)
    ensures Prepend(Cons(key, t, Nil), r) == if r.Bad? then r else Good(Cons(key, t, r.value), r.next)
  {
    if r.Good? {
      assert Append(Cons(key, t, Nil), r.value) == Cons(key, t, Append(Nil, r.value));
    }
  }

  function Prepend<S>(done: Members<S>, r: Parsed<Members<S>>): Parsed<Members<S>> {
    if r.Bad? then r else Good(Append(done, r.value), r.next)
  }

  // ---- the flat layout ----

  /** Number of tokens of a tree. */
  function Size<S>(t: Json<S>): (n: nat)
    ensures n > 0
  {
    match t
    case Leaf(_, _) => 1
    case Node(_, ms) => 2 + SizeAll(ms)
  }

  function SizeAll<S>(ms: Members<S>): nat {
    if ms.Nil? then 0 else Size(ms.head) + SizeAll(ms.tail)
  }

  /** The tokens of `t` when its first token has index `base`. */
  function Flatten<S>(t: Json<S>, key: Option<S>, base: nat, parent: Link): (r: seq<Token<S>>)
    ensures |r| == Size(t)
  {
    match t
    case Leaf(kind, v) => [Token(kind, key, Some(v), parent, 0, Nowhere)]
    case Node(keyed, ms) =>
      [Token(if keyed then Object else Array, key, None, parent, Len(ms) + 1, To(base + 1 + SizeAll(ms)))]
      + FlattenAll(ms, base + 1, base)
      + [Token(if keyed then ObjectEnd else ArrayEnd, None, None, To(base), 0, Nowhere)]
  }

  function FlattenAll<S>(ms: Members<S>, base: nat, parent: nat): (r: seq<Token<S>>)
    ensures |r| == SizeAll(ms)
  {
    if ms.Nil? then [] else
    Flatten(ms.head, ms.key, base, To(parent)) + FlattenAll(ms.tail, base + Size(ms.head), parent)
  }

  /** The counters of a token are narrow: 8-bit key length, 32-bit value length, 16-bit child count. */
  const KLEN_MAX: nat := 0xFF
  const VLEN_MAX: nat := 0xFFFF_FFFF
  const CHILDS_MAX: nat := 0xFFFF

  predicate KeysFit(t: Json<Span>) {
    t.Node? ==> KeysFitAll(t.members)
  }

  predicate KeysFitAll(ms: Members<Span>) {
    ms.Cons? ==> (ms.key.Some? ==> ms.key.value.len < KLEN_MAX) && KeysFit(ms.head) && KeysFitAll(ms.tail)
  }

  /** The lengths of the values below a root; the length of a scalar root is not checked. */
  predicate ValuesFit(t: Json<Span>) {
    t.Node? ==> ValuesFitAll(t.members)
  }

  predicate ValuesFitAll(ms: Members<Span>) {
    ms.Cons? ==>
      (ms.head.Leaf? ==> ms.head.value.len < VLEN_MAX) && ValuesFit(ms.head) && ValuesFitAll(ms.tail)
  }

  /** Each counter reaches the number of children plus one for the END token. */
  predicate ChildsFit(t: Json<Span>) {
    t.Node? ==> Len(t.members) < CHILDS_MAX && ChildsFitAll(t.members)
  }

  predicate ChildsFitAll(ms: Members<Span>) {
    ms.Cons? ==> ChildsFit(ms.head) && ChildsFitAll(ms.tail)
  }

  predicate Fits(t: Json<Span>) { KeysFit(t) && ValuesFit(t) && ChildsFit(t) }

  // ---- reading one more member ----

  lemma {:induction false} AppendOne<S>(a: Members<S>, k: Option<S>, t: Json<S>, b: Members<S>)
    ensures Append(Append(a, Cons(k, t, Nil)), b) == Append(a, Cons(k, t, b))
    ensures Len(Append(a, b)) == Len(a) + Len(b)
    ensures SizeAll(Append(a, b)) == SizeAll(a) + SizeAll(b)
  {
    if a.Cons? { AppendOne(a.tail, k, t, b); }
  }

  lemma {:induction false} AppendNil<S>(a: Members<S>)
    ensures Append(a, Nil) == a
  {
    if a.Cons? { AppendNil(a.tail); }
  }

  lemma {:induction false} FlattenAppend<S>(a: Members<S>, b: Members<S>, base: nat, parent: nat)
    ensures FlattenAll(Append(a, b), base, parent)
         == FlattenAll(a, base, parent) + FlattenAll(b, base + SizeAll(a), parent)
  {
    if a.Nil? {
      assert FlattenAll<S>(a, base, parent) == [];
    } else {
      FlattenAppend(a.tail, b, base + Size(a.head), parent);
    }
  }

  /** Laying out one more member. */
  lemma {:induction false} FlattenOne<S>(a: Members<S>, k: Option<S>, t: Json<S>, base: nat, parent: nat)
    ensures SizeAll(Append(a, Cons(k, t, Nil))) == SizeAll(a) + Size(t)
    ensures Len(Append(a, Cons(k, t, Nil))) == Len(a) + 1
    ensures FlattenAll(Append(a, Cons(k, t, Nil)), base, parent)
         == FlattenAll(a, base, parent) + Flatten(t, k, base + SizeAll(a), To(parent))
  {
    var one := Cons(k, t, Nil);
    AppendOne(a, k, t, one);
    FlattenAppend(a, one, base, parent);
    assert one.tail == Nil;
    assert FlattenAll(one, base + SizeAll(a), parent) == Flatten(t, k, base + SizeAll(a), To(parent));
  }

  lemma {:induction false} FitsAppend(a: Members<Span>, b: Members<Span>)
    ensures KeysFitAll(Append(a, b)) <==> KeysFitAll(a) && KeysFitAll(b)
    ensures ValuesFitAll(Append(a, b)) <==> ValuesFitAll(a) && ValuesFitAll(b)
    ensures ChildsFitAll(Append(a, b)) <==> ChildsFitAll(a) && ChildsFitAll(b)
  {
    if a.Cons? { FitsAppend(a.tail, b); }
  }
}
