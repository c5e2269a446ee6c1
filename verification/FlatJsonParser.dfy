/** The FlatJSON reader: one recursive-descent parser run in two modes. Counting sizes the token
    storage, parsing fills it in place. Both are proved against `ParseValue` and `Flatten`. */
module FlatJsonParser {
  import opened Options
  import DigitText
  import opened FlatJsonLexer
  import opened FlatJsonTree

  datatype Mode = Parse | CountTokens

  const BLANK: Token<Span> := Token(InvalidType, None, None, Nowhere, 0, Nowhere)

  ghost predicate BlankFrom(tokens: seq<Token<Span>>, i: nat) {
    forall k :: i <= k < |tokens| ==> tokens[k] == BLANK
  }

  /** A token in which at most the key (and the type its parse left behind) has been written. */
  predicate KeyOnly(t: Token<Span>) { t == BLANK.(kind := t.kind, key := t.key) }

  /** One more child is counted at the parent. */
  ghost function Bump(tokens: seq<Token<Span>>, parent: Link): (r: seq<Token<Span>>)
    ensures |r| == |tokens|
  {
    if parent.To? && parent.index < |tokens| then
      tokens[parent.index := tokens[parent.index].(childs := tokens[parent.index].childs + 1)]
    else tokens
  }

  ghost predicate FitsAll(ms: Members<Span>) { KeysFitAll(ms) && ValuesFitAll(ms) && ChildsFitAll(ms) }

  /** What each error code says about the document, when the rest of the members is `r`, there is
      room for `room` more tokens and the container counts `childs` children already. */
  ghost predicate ExplainsAll(ec: ErrorCode, r: Parsed<Members<Span>>, room: int, childs: nat) {
    match ec
    case Fine => true
    case Invalid => r == Bad(ec)
    case Incomplete => r == Bad(ec)
    case NoFreeTokens => r.Good? ==> SizeAll(r.value) > room
    case KlenOverflow => r.Good? ==> !KeysFitAll(r.value)
    case VlenOverflow => r.Good? ==> !ValuesFitAll(r.value)
    case ChildsOverflow => r.Good? ==> !ChildsFitAll(r.value) || childs + Len(r.value) >= CHILDS_MAX
  }

  ghost predicate Explains(ec: ErrorCode, r: Parsed<Json<Span>>, room: int, parentFull: bool) {
    match ec
    case Fine => r.Good? && Fits(r.value)
    case Invalid => r == Bad(ec)
    case Incomplete => r == Bad(ec)
    case NoFreeTokens => r.Good? ==> Size(r.value) > room
    case KlenOverflow => r.Good? ==> !KeysFit(r.value)
    case VlenOverflow => r.Good? ==> !ValuesFit(r.value)
    case ChildsOverflow => r.Good? ==> !ChildsFit(r.value) || parentFull
  }

  /** A value as the only member of a container. */
  ghost function Single(key: Option<Span>, v: Parsed<Json<Span>>): Parsed<Members<Span>> {
    if v.Bad? then Bad(v.ec) else Good(Cons(key, v.value, Nil), v.next)
  }

  /** What stops at the first member explains the failure of the whole rest. */
  lemma {:induction false} ExplainsFirst(ec: ErrorCode, key: Option<Span>, v: Parsed<Json<Span>>, r: Parsed<Members<Span>>, room: int, childs: nat)
    requires ExplainsAll(ec, Single(key, v), room, childs)
    requires v.Bad? ==> r == Bad(v.ec)
    requires r.Good? ==> r.value.Cons? && r.value.key == key && r.value.head == v.value
    ensures ExplainsAll(ec, r, room, childs)
  {
    if r.Good? {
      assert r.value == Cons(key, v.value, r.value.tail);
      assert KeysFitAll(Nil) && ValuesFitAll(Nil) && ChildsFitAll(Nil);
      assert SizeAll<Span>(Nil) == 0 && Len<Span>(Nil) == 0;
    }
  }

  /** The tokens of one more member extend the layout of the members in front of it. */
  lemma {:induction false} ExtendLayout(tokens: seq<Token<Span>>, start: nat, done: Members<Span>, key: Option<Span>, item: Json<Span>)
    requires var pair := start + 1 + SizeAll(done);
      && pair + Size(item) <= |tokens|
      && tokens[start + 1..pair] == FlattenAll(done, start + 1, start)
      && tokens[pair..pair + Size(item)] == Flatten(item, key, pair, To(start))
    ensures var ms := Append(done, Cons(key, item, Nil));
      && SizeAll(ms) == SizeAll(done) + Size(item) && Len(ms) == Len(done) + 1
      && tokens[start + 1..start + 1 + SizeAll(ms)] == FlattenAll(ms, start + 1, start)
  {
    hide *;
    var pair := start + 1 + SizeAll(done);
    FlattenOne(done, key, item, start + 1, start);
    assert tokens[start + 1..pair + Size(item)] == tokens[start + 1..pair] + tokens[pair..pair + Size(item)];
  }

  /** A container parsed into the token behind `done`. */
  lemma {:induction false} ExtendByNode(before: seq<Token<Span>>, after: seq<Token<Span>>, start: nat, done: Members<Span>, key: Option<Span>, item: Json<Span>)
    requires var pair := start + 1 + SizeAll(done);
      && pair + Size(item) <= |before| == |after|
      && before[start + 1..pair] == FlattenAll(done, start + 1, start)
      && after[..pair] == Bump(before[..pair], To(start))
      && after[pair..pair + Size(item)] == Flatten(item, key, pair, To(start))
    requires FitsAll(done) && FitsAll(Cons(key, item, Nil))
    ensures var ms := Append(done, Cons(key, item, Nil));
      && after[..start] == before[..start]
      && after[start] == before[start].(childs := before[start].childs + 1)
      && SizeAll(ms) == SizeAll(done) + Size(item) && Len(ms) == Len(done) + 1 && FitsAll(ms)
      && after[start + 1..start + 1 + SizeAll(ms)] == FlattenAll(ms, start + 1, start)
  {
    var pair := start + 1 + SizeAll(done);
    assert after[..start] == after[..pair][..start];
    assert before[..start] == before[..pair][..start];
    assert after[start] == after[..pair][start];
    assert before[start + 1..pair] == before[..pair][start + 1..];
    assert after[start + 1..pair] == after[..pair][start + 1..];
    ExtendLayout(after, start, done, key, item);
    FitsAppend(done, Cons(key, item, Nil));
  }

  /** A scalar stored in the token behind `done`. */
  lemma {:induction false} ExtendByLeaf(before: seq<Token<Span>>, after: seq<Token<Span>>, start: nat, done: Members<Span>, key: Option<Span>, item: Json<Span>)
    requires item.Leaf?
    requires var pair := start + 1 + SizeAll(done);
      && pair < |before|
      && before[start + 1..pair] == FlattenAll(done, start + 1, start)
      && after == before[start := before[start].(childs := before[start].childs + 1)]
                        [pair := Token(item.kind, key, Some(item.value), To(start), 0, Nowhere)]
    requires FitsAll(done) && FitsAll(Cons(key, item, Nil))
    ensures var ms := Append(done, Cons(key, item, Nil));
      && after[..start] == before[..start]
      && SizeAll(ms) == SizeAll(done) + Size(item) && Len(ms) == Len(done) + 1 && FitsAll(ms)
      && after[start + 1..start + 1 + SizeAll(ms)] == FlattenAll(ms, start + 1, start)
  {
    var pair := start + 1 + SizeAll(done);
    assert after[start + 1..pair] == before[start + 1..pair];
    assert after[pair..pair + Size(item)] == [after[pair]];
    ExtendLayout(after, start, done, key, item);
    FitsAppend(done, Cons(key, item, Nil));
  }

  lemma {:induction false} ExplainsSingle(ec: ErrorCode, key: Option<Span>, v: Parsed<Json<Span>>, room: int, childs: nat)
    requires ec != Fine && Explains(ec, v, room, childs >= CHILDS_MAX)
    ensures ExplainsAll(ec, Single(key, v), room, childs)
  {
    assert SizeAll<Span>(Nil) == 0 && Len<Span>(Nil) == 0;
  }

  lemma {:induction false} ExplainsFine(r: Parsed<Members<Span>>, room: int)
    ensures ExplainsAll(Fine, r, room, 0)
  {
  }

  lemma {:induction false} PrependNil(done: Members<Span>, r: Parsed<Members<Span>>)
    ensures Prepend(Nil, r) == r && SizeAll<Span>(Nil) == 0
    ensures r.Good? && r.value == Nil ==> Prepend(done, r) == Good(done, r.next)
  {
    AppendNil(done);
  }

  lemma {:induction false} PrependOne(done: Members<Span>, key: Option<Span>, item: Json<Span>, rest: Parsed<Members<Span>>)
    ensures Prepend(done, Prepend(Cons(key, item, Nil), rest)) == Prepend(Append(done, Cons(key, item, Nil)), rest)
  {
    if rest.Good? {
      assert Append(Cons(key, item, Nil), rest.value) == Cons(key, item, Append(Nil, rest.value));
      AppendOne(done, key, item, rest.value);
    }
  }

  /** What stops the rest of the members explains the failure of all of them. */
  lemma {:induction false} ExplainsPrepend(ec: ErrorCode, done: Members<Span>, rest: Parsed<Members<Span>>, room: int)
    requires ExplainsAll(ec, rest, room - SizeAll(done), Len(done))
    ensures ExplainsAll(ec, Prepend(done, rest), room, 0)
  {
    if rest.Good? {
      FitsAppend(done, rest.value);
      AppendOne(done, None, Leaf(Null, Span(0, 0)), rest.value);
    }
  }

  /** What stops the members explains the failure of the container. */
  lemma {:induction false} ExplainsNode(ec: ErrorCode, keyed: bool, all: Parsed<Members<Span>>, v: Parsed<Json<Span>>, room: int, full: bool)
    requires ec != Fine && ExplainsAll(ec, all, room - 2, 0)
    requires v == if all.Bad? then Bad(all.ec) else Good(Node(keyed, all.value), all.next)
    ensures Explains(ec, v, room, full)
  {
  }

  class Parser {
    const text: string
    var jsCur: nat
    var tokens: seq<Token<Span>>
    var tokCur: nat

    /** fj_init over storage of `BLANK` tokens. */
    constructor (text: string, tokens: seq<Token<Span>>)
      ensures this.text == text && this.tokens == tokens && jsCur == 0 && tokCur == 0
    {
      this.text := text;
      this.tokens := tokens;
      jsCur, tokCur := 0, 0;
    }

    // ---- characters ----

    /** __FLATJSON__CUR_CHAR: fj_skip_ws and a look at what follows; `None` is the end marker. */
    method CurChar() returns (c: Option<char>)
      requires jsCur <= |text|
      modifies this`jsCur
      ensures jsCur == SkipWs(text, old(jsCur))
      ensures c == if jsCur < |text| then Some(text[jsCur]) else None
    {
      while jsCur < |text| && IsWs(text[jsCur])
        invariant jsCur <= |text|
        invariant SkipWs(text, jsCur) == SkipWs(text, old(jsCur))
      {
        jsCur := jsCur + 1;
      }
      c := if jsCur < |text| then Some(text[jsCur]) else None;
    }

    method CheckAndSkip(expected: char) returns (ec: ErrorCode)
      requires jsCur <= |text|
      modifies this`jsCur
      ensures jsCur <= |text|
      ensures match Expect(text, old(jsCur), expected)
              case Stop(e) => ec == Fine && jsCur == e
              case Fail(why) => ec == why
    {
      var ch := CurChar();
      if ch == Some(expected) {
        jsCur := jsCur + 1;
        return Fine;
      }
      return if ch.None? then Incomplete else Invalid;
    }

    /** fj_expect. */
    method ExpectLiteral(mode: Mode, lit: string) returns (ec: ErrorCode, span: Span)
      requires jsCur <= |text|
      modifies this`jsCur
      ensures jsCur <= |text|
      ensures match ScanLiteral(text, old(jsCur), lit)
              case Stop(e) => ec == Fine && jsCur == e && (mode.Parse? ==> span == Span(old(jsCur), e - old(jsCur)))
              case Fail(why) => ec == why
      ensures mode.CountTokens? ==> span.len == 0
    {
      span := Span(0, 0);
      if jsCur + |lit| > |text| { return Incomplete, span; }
      if text[jsCur..jsCur + |lit|] != lit { return Invalid, span; }
      if mode.Parse? { span := Span(jsCur, |lit|); }
      jsCur := jsCur + |lit|;
      ec := Fine;
    }

    method ParseString(mode: Mode) returns (ec: ErrorCode, span: Span)
      requires jsCur < |text| && text[jsCur] == '"'
      modifies this`jsCur
      ensures jsCur <= |text|
      ensures match ScanString(text, old(jsCur) + 1)
              case Stop(e) => ec == Fine && jsCur == e + 1 && (mode.Parse? ==> span == Span(old(jsCur) + 1, e - (old(jsCur) + 1)))
              case Fail(why) => ec == why
      ensures mode.CountTokens? ==> span.len == 0
    {
      span := Span(0, 0);
      ec := CheckAndSkip('"');
      assert ec == Fine && jsCur == old(jsCur) + 1;
      var start := jsCur;
      while jsCur < |text|
        invariant start <= jsCur <= |text|
        invariant ScanString(text, jsCur) == ScanString(text, start)
      {
        var ch := text[jsCur];
        var len := Utf8Len(ch);
        if ch < ' ' { return Invalid, span; }
        if len > |text| - jsCur { return Incomplete, span; }
        if ch == '\\' {
          var n := EscapeLen(text, jsCur + 1, |text| - jsCur);
          if n.Fail? { return n.ec, span; }
          len := len + n.end;
        } else if ch == '"' {
          if mode.Parse? { span := Span(start, jsCur - start); }
          jsCur := jsCur + 1;
          return Fine, span;
        }
        jsCur := jsCur + len;
      }
      ec := Incomplete;
    }

    /** The inner loops of fj_parse_number, behind the test for a first digit. */
    method SkipRun(hex: bool) returns (ec: ErrorCode)
      requires jsCur <= |text|
      modifies this`jsCur
      ensures jsCur <= |text|
      ensures match ScanRun(text, old(jsCur), hex)
              case Stop(e) => ec == Fine && jsCur == e
              case Fail(why) => ec == why
    {
      if jsCur >= |text| { return Incomplete; }
      if !InRun(text[jsCur], hex) { return Invalid; }
      while jsCur < |text| && InRun(text[jsCur], hex)
        invariant jsCur <= |text|
        invariant Run(text, jsCur, hex) == Run(text, old(jsCur), hex)
      {
        jsCur := jsCur + 1;
      }
      ec := Fine;
    }

    /** The decimal branch of fj_parse_number. */
    method SkipDecimal() returns (ec: ErrorCode)
      requires jsCur <= |text|
      modifies this`jsCur
      ensures jsCur <= |text|
      ensures match ScanDecimal(text, old(jsCur))
              case Stop(e) => ec == Fine && jsCur == e
              case Fail(why) => ec == why
    {
      ec := SkipRun(false);
      if ec != Fine { return; }
      if jsCur < |text| && text[jsCur] == '.' {
        jsCur := jsCur + 1;
        ec := SkipRun(false);
        if ec != Fine { return; }
      }
      ec := SkipExponent();
    }

    method SkipExponent() returns (ec: ErrorCode)
      requires jsCur <= |text|
      modifies this`jsCur
      ensures jsCur <= |text|
      ensures match ScanExponent(text, old(jsCur))
              case Stop(e) => ec == Fine && jsCur == e
              case Fail(why) => ec == why
    {
      ec := Fine;
      if jsCur < |text| && (text[jsCur] == 'e' || text[jsCur] == 'E') {
        jsCur := jsCur + 1;
        if jsCur >= |text| { return Incomplete; }
        if text[jsCur] == '+' || text[jsCur] == '-' { jsCur := jsCur + 1; }
        ec := SkipRun(false);
      }
    }

    /** fj_parse_number behind the sign. */
    method SkipMagnitude() returns (ec: ErrorCode)
      requires jsCur <= |text|
      modifies this`jsCur
      ensures jsCur <= |text|
      ensures match ScanMagnitude(text, old(jsCur))
              case Stop(e) => ec == Fine && jsCur == e
              case Fail(why) => ec == why
    {
      if jsCur >= |text| { return Incomplete; }
      if jsCur + 1 < |text| && text[jsCur] == '0' && text[jsCur + 1] == 'x' {
        jsCur := jsCur + 2;
        ec := SkipRun(true);
      } else {
        ec := SkipDecimal();
      }
    }

    method ParseNumber(mode: Mode) returns (ec: ErrorCode, span: Span)
      requires jsCur < |text| && !IsWs(text[jsCur])
      modifies this`jsCur
      ensures jsCur <= |text|
      ensures match ScanNumber(text, old(jsCur))
              case Stop(e) => ec == Fine && jsCur == e && (mode.Parse? ==> span == Span(old(jsCur), e - old(jsCur)))
              case Fail(why) => ec == why
      ensures mode.CountTokens? ==> span.len == 0
    {
      span := Span(0, 0);
      var start := jsCur;
      var ch := CurChar();
      if ch == Some('-') { jsCur := jsCur + 1; }
      ec := SkipMagnitude();
      if ec != Fine { return; }
      if jsCur - start > 1 && text[start] == '0' && text[start + 1] != '.' { return Invalid, span; }
      if mode.Parse? { span := Span(start, jsCur - start); }
      ec := Fine;
    }

    /** Behind a value: an optional comma, not directly followed by the closing bracket. */
    method SkipComma(close: char) returns (ec: ErrorCode)
      requires jsCur <= |text|
      modifies this`jsCur
      ensures jsCur <= |text|
      ensures match Separator(text, old(jsCur), close)
              case Stop(e) => ec == Fine && jsCur == e
              case Fail(why) => ec == why
    {
      var ch := CurChar();
      if ch == Some(',') {
        jsCur := jsCur + 1;
        if Peek(text, jsCur) == close { return Invalid; }
      }
      ec := Fine;
    }

    // ---- tokens ----

    /** The container opened at `start` holds `done` so far, laid out up to `tokCur`. */
    ghost predicate Building(mode: Mode, start: nat, done: Members<Span>)
      reads this
    {
      && jsCur <= |text|
      && tokCur == start + 1 + SizeAll(done)
      && (mode.Parse? ==>
            && tokCur <= |tokens| && BlankFrom(tokens, tokCur) && FitsAll(done)
            && tokens[start].childs == Len(done)
            && tokens[start + 1..tokCur] == FlattenAll(done, start + 1, start))
    }

    /** Storage is ready for a value whose first token is at `tokCur`. */
    ghost predicate Ready(mode: Mode, parent: Link)
      reads this
    {
      && jsCur <= |text|
      && (parent.To? ==> parent.index < tokCur)
      && (mode.Parse? ==>
            tokCur <= |tokens| && BlankFrom(tokens, tokCur + 1) && (tokCur < |tokens| ==> KeyOnly(tokens[tokCur])))
    }

    /** Nothing but the child counter of the container at `start` has changed in front of its children. */
    twostate predicate Grown(mode: Mode, start: nat)
      requires mode.Parse? ==> start < old(|tokens|) == |tokens|
      reads this
    {
      if mode.CountTokens? then tokens == old(tokens)
      else tokens[..start] == old(tokens)[..start] && tokens[start] == old(tokens)[start].(childs := tokens[start].childs)
    }

    method OpenContainer(mode: Mode, kind: TokenType, parent: Link) returns (ec: ErrorCode, start: nat)
      requires Ready(mode, parent)
      modifies this`tokens, this`tokCur
      ensures |tokens| == |old(tokens)| && start == old(tokCur)
      ensures ec in {Fine, NoFreeTokens, ChildsOverflow}
      ensures ec == NoFreeTokens ==> mode.Parse? && start == |tokens|
      ensures ec == ChildsOverflow ==> mode.Parse? && parent.To? && old(tokens[parent.index].childs) >= CHILDS_MAX
      ensures ec == Fine ==> Building(mode, start, Nil)
      ensures mode.CountTokens? ==> ec == Fine && tokens == old(tokens)
      ensures mode.Parse? && ec == Fine ==>
                && start < |tokens| && tokens[..start] == Bump(old(tokens)[..start], parent)
                && tokens[start] == BLANK.(kind := kind, key := old(tokens)[start].key, parent := parent)
    {
      start := tokCur;
      if mode.Parse? && tokCur == |tokens| { return NoFreeTokens, start; }
      tokCur := tokCur + 1;
      if mode.Parse? {
        tokens := tokens[start := tokens[start].(kind := kind, parent := parent)];
        if parent.To? {
          if tokens[parent.index].childs >= CHILDS_MAX { return ChildsOverflow, start; }
          tokens := tokens[parent.index := tokens[parent.index].(childs := tokens[parent.index].childs + 1)];
        }
      }
      ec := Fine;
    }

    method CloseContainer(mode: Mode, keyed: bool, start: nat, ghost done: Members<Span>) returns (ec: ErrorCode)
      requires Building(mode, start, done)
      requires mode.Parse? ==> KeyOnly(tokens[start].(parent := Nowhere, childs := 0))
      requires mode.Parse? ==> tokens[start].kind == if keyed then Object else Array
      modifies this`tokens, this`tokCur
      ensures |tokens| == |old(tokens)|
      ensures ec in {Fine, NoFreeTokens, ChildsOverflow}
      ensures ec == NoFreeTokens ==> mode.Parse? && old(tokCur) == |tokens|
      ensures ec == ChildsOverflow ==> mode.Parse? && Len(done) >= CHILDS_MAX
      ensures ec == Fine ==> tokCur == start + Size(Node(keyed, done)) && (mode.Parse? ==> tokCur <= |tokens|)
      ensures mode.CountTokens? ==> ec == Fine && tokens == old(tokens)
      ensures mode.Parse? && ec == Fine ==>
                && BlankFrom(tokens, tokCur) && Fits(Node(keyed, done))
                && tokens[..start] == old(tokens)[..start]
                && tokens[start..tokCur] == Flatten(Node(keyed, done), old(tokens)[start].key, start, old(tokens)[start].parent)
    {
      hide FlattenAll, KeysFitAll, ValuesFitAll, ChildsFitAll;
      if mode.Parse? {
        if tokCur == |tokens| { return NoFreeTokens; }
        var end := tokCur;
        tokCur := tokCur + 1;
        tokens := tokens[end := tokens[end].(kind := if keyed then ObjectEnd else ArrayEnd, parent := To(start))];
        if tokens[start].childs >= CHILDS_MAX { return ChildsOverflow; }
        tokens := tokens[start := tokens[start].(childs := tokens[start].childs + 1)];
        tokens := tokens[start := tokens[start].(end := To(end))];
        assert tokens[start + 1..end] == old(tokens)[start + 1..end];
        assert tokens[start..tokCur] == [tokens[start]] + tokens[start + 1..end] + [tokens[end]];
      } else {
        tokCur := tokCur + 1;
      }
      ec := Fine;
    }

    /** The scalar cases of fj_parse_value. */
    method ParseScalar(mode: Mode) returns (ec: ErrorCode, span: Span, kind: TokenType)
      requires jsCur < |text| && !IsWs(text[jsCur])
      modifies this`jsCur, this`tokCur
      ensures jsCur <= |text|
      ensures match FlatJsonTree.ParseScalar(text, old(jsCur))
              case Good(t, next) => ec == Fine && jsCur == next && (mode.Parse? ==> Leaf(kind, span) == t)
              case Bad(why) => ec == why
      ensures ec == Fine ==> tokCur == if old(tokCur) == 0 then 1 else old(tokCur)
      ensures mode.CountTokens? ==> span.len == 0
      ensures ec == Fine ==> IsSimple(kind)
    {
      var ch := text[jsCur];
      kind := InvalidType;
      span := Span(0, 0);
      if ch == 'n' {
        ec, span := ExpectLiteral(mode, "null");
        kind := Null;
      } else if ch == 't' {
        ec, span := ExpectLiteral(mode, "true");
        kind := Bool;
      } else if ch == 'f' {
        ec, span := ExpectLiteral(mode, "false");
        kind := Bool;
      } else if ch == '-' || DigitText.IsDigit(ch) {
        ec, span := ParseNumber(mode);
        kind := Number;
      } else if ch == '"' {
        ec, span := ParseString(mode);
        kind := String;
      } else {
        ec := Invalid;
      }
      if ec == Fine && tokCur == 0 { tokCur := tokCur + 1; }
    }

    ghost predicate ParentFull(parent: Link)
      requires parent.To? ==> parent.index < |tokens|
      reads this
    {
      parent.To? && tokens[parent.index].childs >= CHILDS_MAX
    }

    /** fj_parse_value: a container fills tokens from `tokCur` on; a scalar is left to the caller to store. */
    method ParseValue(mode: Mode, parent: Link) returns (ec: ErrorCode, span: Span, kind: TokenType)
      requires Ready(mode, parent)
      requires parent.To? <==> tokCur > 0
      modifies this
      ensures jsCur <= |text| && |tokens| == |old(tokens)|
      ensures var r := FlatJsonTree.ParseValue(text, old(jsCur));
        && (mode.CountTokens? ==> ec == (if r.Good? then Fine else r.ec) && tokens == old(tokens) && span.len == 0)
        && (mode.Parse? ==> Explains(ec, r, |tokens| - old(tokCur), old(ParentFull(parent))))
        && (r.Good? && r.value.Leaf? ==> ec == Fine)
        && (ec == Fine ==> r.Good? && jsCur == r.next)
        && (ec == Fine && r.value.Leaf? ==>
              && tokens == old(tokens) && tokCur == (if parent.To? then old(tokCur) else 1)
              && IsSimple(kind) && (mode.Parse? ==> Leaf(kind, span) == r.value))
        && (ec == Fine && r.value.Node? ==>
              && kind in {Object, Array} && span.len == 0
              && tokCur == old(tokCur) + Size(r.value)
              && (mode.Parse? ==> Filled(r.value, parent)))
      decreases |text| - jsCur, 1
    {
      var ch := CurChar();
      span := Span(0, 0);
      kind := InvalidType;
      if ch == Some('{') {
        ec := ParseObject(mode, parent);
        kind := Object;
      } else if ch == Some('[') {
        ec := ParseArray(mode, parent);
        kind := Array;
      } else if ch.None? {
        ec := Incomplete;
      } else {
        ec, span, kind := ParseScalar(mode);
      }
    }

    /** Since the old state, `t` has been laid out at the old `tokCur`, which kept its key, and the parent counts it. */
    twostate predicate Filled(new t: Json<Span>, parent: Link)
      requires |tokens| == old(|tokens|)
      reads this
    {
      var c := old(tokCur);
      && tokCur == c + Size(t) <= |tokens| && BlankFrom(tokens, tokCur)
      && tokens[..c] == Bump(old(tokens)[..c], parent)
      && tokens[c..tokCur] == Flatten(t, old(tokens)[c].key, c, parent)
    }

    /** Gives the token at `pair` to the container at `start` and counts it there. */
    method AddChild(start: nat, pair: nat) returns (ec: ErrorCode)
      requires start < pair < |tokens|
      modifies this`tokens
      ensures ec == if old(tokens[start].childs) >= CHILDS_MAX then ChildsOverflow else Fine
      ensures |tokens| == |old(tokens)|
      ensures ec == Fine ==> tokens == old(tokens)[pair := old(tokens)[pair].(parent := To(start))]
                                                  [start := old(tokens)[start].(childs := old(tokens)[start].childs + 1)]
    {
      tokens := tokens[pair := tokens[pair].(parent := To(start))];
      if tokens[start].childs >= CHILDS_MAX { return ChildsOverflow; }
      tokens := tokens[start := tokens[start].(childs := tokens[start].childs + 1)];
      ec := Fine;
    }

    /** A token for the next member has been taken at `pair`, and at most its key written. */
    ghost predicate Taken(mode: Mode, start: nat, done: Members<Span>, key: Option<Span>)
      reads this
    {
      && jsCur <= |text|
      && tokCur == start + 2 + SizeAll(done)
      && (mode.Parse? ==>
            && tokCur <= |tokens| && BlankFrom(tokens, tokCur) && FitsAll(done)
            && (key.Some? ==> key.value.len < KLEN_MAX)
            && tokens[start].childs == Len(done)
            && tokens[start + 1..tokCur - 1] == FlattenAll(done, start + 1, start)
            && KeyOnly(tokens[tokCur - 1]) && tokens[tokCur - 1].key == key)
    }

    /** A member that is a container: the parse starts over at the token taken for it. */
    method ParseNested(mode: Mode, start: nat, ghost done: Members<Span>, ghost key: Option<Span>) returns (ec: ErrorCode)
      requires Taken(mode, start, done, key)
      requires jsCur < |text| && text[jsCur] in {'{', '['}
      modifies this
      ensures jsCur <= |text| && |tokens| == |old(tokens)|
      ensures var v := FlatJsonTree.ParseValue(text, old(jsCur));
        && (mode.CountTokens? ==> ec == (if v.Good? then Fine else v.ec) && tokens == old(tokens))
        && (mode.Parse? ==> ExplainsAll(ec, Single(key, v), |tokens| - old(tokCur) + 1, Len(done)))
        && (ec == Fine ==>
              && v.Good? && jsCur == v.next
              && Building(mode, start, Append(done, Cons(key, v.value, Nil))) && Grown(mode, start))
      decreases |text| - jsCur, 2
    {
      hide Flatten, FlattenAll, Append, SizeAll;
      ghost var v := FlatJsonTree.ParseValue(text, jsCur);
      tokCur := tokCur - 1;
      var span, kind;
      ec, span, kind := ParseValue(mode, To(start));
      if ec != Fine {
        if mode.Parse? { ExplainsSingle(ec, key, v, |tokens| - old(tokCur) + 1, Len(done)); }
        return;
      }
      if mode.Parse? {
        ExtendByNode(old(tokens), tokens, start, done, key, v.value);
      } else {
        FlattenOne(done, key, v.value, 0, 0);
      }
    }

    /** A member that is a scalar: its token is linked and counted before the value is looked at. */
    method ParseLeaf(mode: Mode, start: nat, ghost done: Members<Span>, ghost key: Option<Span>) returns (ec: ErrorCode)
      requires Taken(mode, start, done, key)
      requires jsCur == SkipWs(text, jsCur) && !(jsCur < |text| && text[jsCur] in {'{', '['})
      modifies this
      ensures jsCur <= |text| && |tokens| == |old(tokens)|
      ensures var v := FlatJsonTree.ParseValue(text, old(jsCur));
        && (mode.CountTokens? ==> ec == (if v.Good? then Fine else v.ec) && tokens == old(tokens))
        && (mode.Parse? ==> ExplainsAll(ec, Single(key, v), |tokens| - old(tokCur) + 1, Len(done)))
        && (ec == Fine ==>
              && v.Good? && jsCur == v.next
              && Building(mode, start, Append(done, Cons(key, v.value, Nil))) && Grown(mode, start))
      decreases |text| - jsCur, 2
    {
      hide Flatten, FlattenAll, Append, ParseItems, ParsePairs, ScanString, ScanNumber, ScanLiteral;
      ghost var v := FlatJsonTree.ParseValue(text, jsCur);
      var pair := tokCur - 1;
      if mode.Parse? {
        ec := AddChild(start, pair);
        if ec != Fine { return; }
      }
      var span, kind;
      ec, span, kind := ParseValue(mode, To(start));
      if ec != Fine { return; }
      if mode.Parse? {
        if span.len >= VLEN_MAX { return VlenOverflow; }
        tokens := tokens[pair := tokens[pair].(kind := kind, val := Some(span))];
        ExtendByLeaf(old(tokens), tokens, start, done, key, v.value);
      } else {
        FlattenOne(done, key, v.value, 0, 0);
      }
    }

    /** The value of a member, into the token taken for it. */
    method ParseMember(mode: Mode, start: nat, ghost done: Members<Span>, ghost key: Option<Span>) returns (ec: ErrorCode)
      requires Taken(mode, start, done, key)
      modifies this
      ensures jsCur <= |text| && |tokens| == |old(tokens)|
      ensures var v := FlatJsonTree.ParseValue(text, old(jsCur));
        && (mode.CountTokens? ==> ec == (if v.Good? then Fine else v.ec) && tokens == old(tokens))
        && (mode.Parse? ==> ExplainsAll(ec, Single(key, v), |tokens| - old(tokCur) + 1, Len(done)))
        && (ec == Fine ==>
              && v.Good? && jsCur == v.next
              && Building(mode, start, Append(done, Cons(key, v.value, Nil))) && Grown(mode, start))
      decreases |text| - jsCur, 3
    {
      var ch := CurChar();
      if ch == Some('{') || ch == Some('[') {
        ec := ParseNested(mode, start, done, key);
      } else {
        ec := ParseLeaf(mode, start, done, key);
      }
    }

    /** One round of the loop in fj_parse_array. */
    method ParseItem(mode: Mode, start: nat, ghost done: Members<Span>) returns (ec: ErrorCode, ghost item: Json<Span>)
      requires Building(mode, start, done)
      requires jsCur == SkipWs(text, jsCur) && !(jsCur < |text| && text[jsCur] == ']')
      modifies this
      ensures jsCur <= |text| && |tokens| == |old(tokens)|
      ensures var r := ParseItems(text, old(jsCur));
        && (mode.CountTokens? ==> (ec == Fine || r == Bad(ec)) && tokens == old(tokens))
        && (mode.Parse? ==> ExplainsAll(ec, r, |tokens| - old(tokCur), Len(done)))
        && (ec == Fine ==> old(jsCur) < jsCur && r == Prepend(Cons(None, item, Nil), ParseItems(text, jsCur)))
      ensures ec == Fine ==> Building(mode, start, Append(done, Cons(None, item, Nil))) && Grown(mode, start)
      decreases |text| - jsCur, 4
    {
      ghost var v := FlatJsonTree.ParseValue(text, jsCur);
      item := if v.Good? then v.value else Leaf(Null, Span(0, 0));
      if mode.Parse? && tokCur == |tokens| { return NoFreeTokens, item; }
      tokCur := tokCur + 1;
      ec := ParseMember(mode, start, done, None);
      if ec != Fine {
        if mode.Parse? { ExplainsFirst(ec, None, v, ParseItems(text, old(jsCur)), |tokens| - old(tokCur), Len(done)); }
        return;
      }
      ec := SkipComma(']');
    }

    /** The loop of fj_parse_array, up to the closing bracket. */
    method ParseItemLoop(mode: Mode, start: nat) returns (ec: ErrorCode, ghost done: Members<Span>)
      requires Building(mode, start, Nil)
      modifies this
      ensures jsCur <= |text| && |tokens| == |old(tokens)|
      ensures var r := ParseItems(text, old(jsCur));
        && (mode.CountTokens? ==> (ec == Fine || r == Bad(ec)) && tokens == old(tokens))
        && (mode.Parse? ==> ExplainsAll(ec, r, |tokens| - old(tokCur), 0))
        && (ec == Fine ==> jsCur < |text| && text[jsCur] == ']' && r == Good(done, jsCur + 1))
      ensures ec == Fine ==> Building(mode, start, done) && Grown(mode, start)
      decreases |text| - jsCur, 5
    {
      hide Flatten, FlattenAll, ExplainsAll, Append, FitsAll, SizeAll, Len, ParseItems;
      done := Nil;
      SkipToItems(text, jsCur);
      var ch := CurChar();
      PrependNil(done, ParseItems(text, jsCur));
      while ch != Some(']')
        invariant |tokens| == |old(tokens)| && Building(mode, start, done) && Grown(mode, start)
        invariant ch == Some(']') ==> ParseItems(text, jsCur) == Good(Nil, jsCur + 1)
        invariant jsCur == SkipWs(text, jsCur) && ch == if jsCur < |text| then Some(text[jsCur]) else None
        invariant old(jsCur) <= jsCur
        invariant ParseItems(text, old(jsCur)) == Prepend(done, ParseItems(text, jsCur))
        decreases |text| - jsCur
      {
        ghost var rest := ParseItems(text, jsCur);
        ghost var item;
        ec, item := ParseItem(mode, start, done);
        if ec != Fine {
          if mode.Parse? { ExplainsPrepend(ec, done, rest, |tokens| - old(tokCur)); }
          return;
        }
        PrependOne(done, None, item, ParseItems(text, jsCur));
        done := Append(done, Cons(None, item, Nil));
        SkipToItems(text, jsCur);
        ch := CurChar();
      }
      PrependNil(done, ParseItems(text, jsCur));
      ExplainsFine(ParseItems(text, old(jsCur)), |tokens| - old(tokCur));
      ec := Fine;
    }

    method ParseArray(mode: Mode, parent: Link) returns (ec: ErrorCode)
      requires Ready(mode, parent) && (parent.To? <==> tokCur > 0)
      requires jsCur < |text| && text[jsCur] == '['
      modifies this
      ensures jsCur <= |text| && |tokens| == |old(tokens)|
      ensures var r := FlatJsonTree.ParseValue(text, old(jsCur));
        && (mode.CountTokens? ==> ec == (if r.Good? then Fine else r.ec) && tokens == old(tokens))
        && (mode.Parse? ==> Explains(ec, r, |tokens| - old(tokCur), old(ParentFull(parent))))
        && (ec == Fine ==> r.Good? && jsCur == r.next && tokCur == old(tokCur) + Size(r.value))
        && (ec == Fine && mode.Parse? ==> Filled(r.value, parent))
      decreases |text| - jsCur, 0
    {
      hide Flatten, FlattenAll, ParseItems, ParsePairs, FlatJsonTree.ParseValue, KeysFitAll, ValuesFitAll, ChildsFitAll;
      AtBracket(text, jsCur);
      ghost var room, v := |tokens| - tokCur, FlatJsonTree.ParseValue(text, jsCur);
      ec := CheckAndSkip('[');
      ghost var all := ParseItems(text, jsCur);
      var start;
      ec, start := OpenContainer(mode, Array, parent);
      if ec != Fine { return; }
      ghost var done;
      ec, done := ParseItemLoop(mode, start);
      if ec != Fine {
        if mode.Parse? { ExplainsNode(ec, false, all, v, room, old(ParentFull(parent))); }
        return;
      }
      ec := CheckAndSkip(']');
      ec := CloseContainer(mode, false, start, done);
    }

    /** Takes a token for the next member, reads its key and the colon. */
    method ParseKey(mode: Mode, start: nat, ghost done: Members<Span>) returns (ec: ErrorCode, ghost key: Option<Span>)
      requires Building(mode, start, done)
      requires jsCur < |text| && text[jsCur] == '"'
      modifies this
      ensures jsCur <= |text| && |tokens| == |old(tokens)|
      ensures mode.CountTokens? ==> (ec == Fine || ParsePairs(text, old(jsCur)) == Bad(ec)) && tokens == old(tokens)
      ensures mode.Parse? ==> ExplainsAll(ec, ParsePairs(text, old(jsCur)), |tokens| - old(tokCur), Len(done))
      ensures ec == Fine ==>
        && Taken(mode, start, done, key) && Grown(mode, start)
        && var k := ScanString(text, old(jsCur) + 1);
        && k.Stop? && key == Some(Span(old(jsCur) + 1, k.end - (old(jsCur) + 1)))
        && Expect(text, k.end + 1, ':') == Stop(jsCur)
      decreases |text| - jsCur, 2
    {
      hide Flatten, FlattenAll, Append, ParsePairs, ParsePairsFrom, FlatJsonTree.ParseValue, ScanString, Expect, SkipWs;
      key := None;
      AtQuote(text, jsCur);
      if ParsePairs(text, jsCur).Good? { MemberAtQuote(text, jsCur); }
      if mode.Parse? && tokCur == |tokens| { return NoFreeTokens, key; }
      var pair := tokCur;
      tokCur := tokCur + 1;
      var span, kind;
      ec, span, kind := ParseValue(mode, To(start));
      if ec != Fine { return; }
      if mode.Parse? {
        if span.len >= KLEN_MAX { return KlenOverflow, key; }
        tokens := tokens[pair := tokens[pair].(kind := kind, key := Some(span))];
        assert tokens[start + 1..pair] == old(tokens)[start + 1..pair];
      }
      key := Some(FlatJsonTree.ParseValue(text, old(jsCur)).value.value);
      ec := CheckAndSkip(':');
    }

    /** One round of the loop in fj_parse_object. */
    method ParsePair(mode: Mode, start: nat, ghost done: Members<Span>)
      returns (ec: ErrorCode, ghost key: Option<Span>, ghost item: Json<Span>)
      requires Building(mode, start, done)
      requires jsCur == SkipWs(text, jsCur) && !(jsCur < |text| && text[jsCur] == '}')
      modifies this
      ensures jsCur <= |text| && |tokens| == |old(tokens)|
      ensures var r := ParsePairs(text, old(jsCur));
        && (mode.CountTokens? ==> (ec == Fine || r == Bad(ec)) && tokens == old(tokens))
        && (mode.Parse? ==> ExplainsAll(ec, r, |tokens| - old(tokCur), Len(done)))
        && (ec == Fine ==> old(jsCur) < jsCur && r == Prepend(Cons(key, item, Nil), ParsePairs(text, jsCur)))
      ensures ec == Fine ==> Building(mode, start, Append(done, Cons(key, item, Nil))) && Grown(mode, start)
      decreases |text| - jsCur, 4
    {
      hide Flatten, FlattenAll, Append, Prepend, ParsePairs, ParsePairsFrom, FlatJsonTree.ParseValue,
        SizeAll, Len, FitsAll, KeysFitAll, ValuesFitAll, ChildsFitAll, ScanString, Expect, Separator;
      key, item := None, Leaf(Null, Span(0, 0));
      var ch := CurChar();
      if ch != Some('"') {
        NoQuote(text, jsCur);
        return if ch.None? then Incomplete else Invalid, key, item;
      }
      AtQuote(text, jsCur);
      ec, key := ParseKey(mode, start, done);
      if ec != Fine { return; }
      FromColon(text, key.value, jsCur);
      ghost var v := FlatJsonTree.ParseValue(text, jsCur);
      if v.Good? { item := v.value; }
      ec := ParseMember(mode, start, done, key);
      if ec != Fine {
        if mode.Parse? { ExplainsFirst(ec, key, v, ParsePairs(text, old(jsCur)), |tokens| - old(tokCur), Len(done)); }
        return;
      }
      ec := SkipComma('}');
    }

    /** The loop of fj_parse_object, up to the closing bracket. */
    method ParsePairLoop(mode: Mode, start: nat) returns (ec: ErrorCode, ghost done: Members<Span>)
      requires Building(mode, start, Nil)
      modifies this
      ensures jsCur <= |text| && |tokens| == |old(tokens)|
      ensures var r := ParsePairs(text, old(jsCur));
        && (mode.CountTokens? ==> (ec == Fine || r == Bad(ec)) && tokens == old(tokens))
        && (mode.Parse? ==> ExplainsAll(ec, r, |tokens| - old(tokCur), 0))
        && (ec == Fine ==> jsCur < |text| && text[jsCur] == '}' && r == Good(done, jsCur + 1))
      ensures ec == Fine ==> Building(mode, start, done) && Grown(mode, start)
      decreases |text| - jsCur, 5
    {
      hide Flatten, FlattenAll, ExplainsAll, Append, FitsAll, SizeAll, Len, ParsePairs;
      done := Nil;
      SkipToPairs(text, jsCur);
      var ch := CurChar();
      PrependNil(done, ParsePairs(text, jsCur));
      while ch != Some('}')
        invariant |tokens| == |old(tokens)| && Building(mode, start, done) && Grown(mode, start)
        invariant ch == Some('}') ==> ParsePairs(text, jsCur) == Good(Nil, jsCur + 1)
        invariant jsCur == SkipWs(text, jsCur) && ch == if jsCur < |text| then Some(text[jsCur]) else None
        invariant old(jsCur) <= jsCur
        invariant ParsePairs(text, old(jsCur)) == Prepend(done, ParsePairs(text, jsCur))
        decreases |text| - jsCur
      {
        ghost var rest := ParsePairs(text, jsCur);
        ghost var key, item;
        ec, key, item := ParsePair(mode, start, done);
        if ec != Fine {
          if mode.Parse? { ExplainsPrepend(ec, done, rest, |tokens| - old(tokCur)); }
          return;
        }
        PrependOne(done, key, item, ParsePairs(text, jsCur));
        done := Append(done, Cons(key, item, Nil));
        SkipToPairs(text, jsCur);
        ch := CurChar();
      }
      PrependNil(done, ParsePairs(text, jsCur));
      ExplainsFine(ParsePairs(text, old(jsCur)), |tokens| - old(tokCur));
      ec := Fine;
    }

    method ParseObject(mode: Mode, parent: Link) returns (ec: ErrorCode)
      requires Ready(mode, parent) && (parent.To? <==> tokCur > 0)
      requires jsCur < |text| && text[jsCur] == '{'
      modifies this
      ensures jsCur <= |text| && |tokens| == |old(tokens)|
      ensures var r := FlatJsonTree.ParseValue(text, old(jsCur));
        && (mode.CountTokens? ==> ec == (if r.Good? then Fine else r.ec) && tokens == old(tokens))
        && (mode.Parse? ==> Explains(ec, r, |tokens| - old(tokCur), old(ParentFull(parent))))
        && (ec == Fine ==> r.Good? && jsCur == r.next && tokCur == old(tokCur) + Size(r.value))
        && (ec == Fine && mode.Parse? ==> Filled(r.value, parent))
      decreases |text| - jsCur, 0
    {
      hide Flatten, FlattenAll, ParseItems, ParsePairs, FlatJsonTree.ParseValue, KeysFitAll, ValuesFitAll, ChildsFitAll;
      AtBracket(text, jsCur);
      ghost var room, v := |tokens| - tokCur, FlatJsonTree.ParseValue(text, jsCur);
      ec := CheckAndSkip('{');
      ghost var all := ParsePairs(text, jsCur);
      var start;
      ec, start := OpenContainer(mode, Object, parent);
      if ec != Fine { return; }
      ghost var done;
      ec, done := ParsePairLoop(mode, start);
      if ec != Fine {
        if mode.Parse? { ExplainsNode(ec, true, all, v, room, old(ParentFull(parent))); }
        return;
      }
      ec := CheckAndSkip('}');
      ec := CloseContainer(mode, true, start, done);
    }
  }
}
