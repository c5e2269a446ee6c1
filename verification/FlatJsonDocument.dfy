/** Whole documents: the counting pass, the parsing pass and their agreement. */
module FlatJsonDocument {
  import opened Options
  import opened FlatJsonLexer
  import opened FlatJsonTree
  import opened FlatJsonParser

  /** The counting pass looks behind the value, but not if exactly one byte is left. */
  predicate TailAccepted(text: string, next: nat)
    requires next <= |text|
  {
    next + 1 == |text| || SkipWs(text, next) == |text|
  }

  /** The tokens of a parsed root. A scalar root's length is stored in 32 bits unchecked. */
  function RootTokens(t: Json<Span>): seq<Token<Span>> {
    if t.Leaf? then [Token(t.kind, None, Some(t.value.(len := t.value.len % (VLEN_MAX + 1))), Nowhere, 0, Nowhere)]
    else Flatten(t, None, 0, Nowhere)
  }

  /** A root is laid out as a member would be, except for scalars whose length does not fit 32 bits. */
  lemma {:induction false} RootExactIff(t: Json<Span>)
    ensures RootTokens(t) == Flatten(t, None, 0, Nowhere) <==> (t.Leaf? ==> t.value.len <= VLEN_MAX)
  {
    if t.Leaf? {
      var kept := RootTokens(t)[0].val.value;
      assert Flatten(t, None, 0, Nowhere)[0].val == Some(t.value);
      assert kept.len == t.value.len % (VLEN_MAX + 1);
    }
  }

  /** fj_num_tokens. */
  method NumTokens(text: string) returns (ec: ErrorCode, toknum: nat)
    ensures var r := ParseValue(text, 0);
      && (r.Bad? ==> ec == r.ec)
      && (r.Good? ==> ec == (if TailAccepted(text, r.next) then Fine else Invalid) && toknum == Size(r.value))
  {
    var p := new Parser(text, []);
    var span, kind;
    ec, span, kind := p.ParseValue(CountTokens, Nowhere);
    if ec == Fine && p.jsCur + 1 != |text| {
      var c := p.CurChar();
      if p.jsCur != |text| { ec := Invalid; }
    }
    toknum := p.tokCur;
  }

  /** fj_init and fj_parse over fresh storage. */
  method ParseTokens(text: string, storage: seq<Token<Span>>) returns (ec: ErrorCode, tokens: seq<Token<Span>>)
    requires storage != [] && BlankFrom(storage, 0)
    ensures Explains(ec, ParseValue(text, 0), |storage|, false)
    ensures ec == Fine ==> tokens == RootTokens(ParseValue(text, 0).value) && |tokens| <= |storage|
  {
    var p := new Parser(text, storage);
    var span, kind;
    ec, span, kind := p.ParseValue(Parse, Nowhere);
    if ec == Fine {
      if IsSimple(kind) {
        p.tokens := p.tokens[0 := p.tokens[0].(kind := kind, val := Some(span.(len := span.len % (VLEN_MAX + 1))))];
      }
    }
    tokens := p.tokens[..if p.tokCur <= |p.tokens| then p.tokCur else 0];
  }

  /** Two passes over the same text: the storage the first one asks for is what the second one fills. */
  method CountThenParse(text: string) returns (ec: ErrorCode, counted: nat, tokens: seq<Token<Span>>)
    ensures var r := ParseValue(text, 0);
      && (ec == Fine <==> r.Good? && TailAccepted(text, r.next) && Fits(r.value))
      && (ec == Fine ==> counted == |tokens| && tokens == RootTokens(r.value))
      && (ec.Syntactic() <==> r.Bad? || !TailAccepted(text, r.next))
      && (ec == KlenOverflow ==> !KeysFit(r.value))
      && (ec == VlenOverflow ==> !ValuesFit(r.value))
      && (ec == ChildsOverflow ==> !ChildsFit(r.value))
    ensures ec != NoFreeTokens
  {
    tokens := [];
    ec, counted := NumTokens(text);
    if ec != Fine { return; }
    ec, tokens := ParseTokens(text, seq(counted, _ => BLANK));
  }
}
