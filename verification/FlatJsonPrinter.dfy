/** The FlatJSON printer (indent 0): a walk over the flat tokens. It is proved to write the text of
    the tree that the tokens lay out. */
module FlatJsonPrinter {
  import opened Options
  import opened FlatJsonLexer
  import opened FlatJsonTree

  /** The bytes behind a pointer and a length. */
  function Slice(text: string, s: Span): string {
    if s.start + s.len <= |text| then text[s.start..s.start + s.len] else ""
  }

  function SliceKey(text: string, s: Option<Span>): Option<string> {
    if s.None? then None else Some(Slice(text, s.value))
  }

  /** A token with the bytes it points at. */
  function View(text: string, t: Token<Span>): Token<string> {
    Token(t.kind, SliceKey(text, t.key), SliceKey(text, t.val), t.parent, t.childs, t.end)
  }

  function Views(text: string, tokens: seq<Token<Span>>): (r: seq<Token<string>>)
    ensures |r| == |tokens|
    ensures forall i :: 0 <= i < |tokens| ==> r[i] == View(text, tokens[i])
  {
    seq(|tokens|, i requires 0 <= i < |tokens| => View(text, tokens[i]))
  }

  predicate OpensContainer(k: TokenType) { k == Object || k == Array }

  predicate ClosesContainer(k: TokenType) { k == ObjectEnd || k == ArrayEnd }

  // ---- the printer ----

  /** Scalars are printed by looking at their parent, so they must have one. */
  ghost predicate Printable<S>(tokens: seq<Token<S>>) {
    forall i :: 0 <= i < |tokens| && IsSimple(tokens[i].kind) ==> tokens[i].parent.To? && tokens[i].parent.index < |tokens|
  }

  function KeyText(key: Option<string>): string {
    "\"" + (if key.Some? then key.value else "") + "\":"
  }

  function ValueText(kind: TokenType, val: Option<string>): string {
    var v := if val.Some? then val.value else "";
    if kind == String then "\"" + v + "\"" else v
  }

  function Comma(tokens: seq<Token<string>>, i: nat): string
    requires i < |tokens|
  {
    if i > 0 && !ClosesContainer(tokens[i].kind) && !OpensContainer(tokens[i - 1].kind) then "," else ""
  }

  /** What one round of the loop in fj_get_tokens writes behind the comma. */
  function Piece(tokens: seq<Token<string>>, i: nat): string
    requires i < |tokens| && Printable(tokens)
  {
    var t := tokens[i];
    match t.kind
    case Object => (if t.key.Some? then KeyText(t.key) else "") + "{"
    case ObjectEnd => "}"
    case Array => (if t.key.Some? then KeyText(t.key) else "") + "["
    case ArrayEnd => "]"
    case InvalidType => ""
    case _ => (if tokens[t.parent.index].kind != Array then KeyText(t.key) else "") + ValueText(t.kind, t.val)
  }

  /** What the loop writes from token `i` up to token `j`. */
  function Print(tokens: seq<Token<string>>, i: nat, j: nat): string
    requires i <= j <= |tokens| && Printable(tokens)
    decreases j - i
  {
    if i == j then "" else Comma(tokens, i) + Piece(tokens, i) + Print(tokens, i + 1, j)
  }

  /** One round of the loop: the comma in front of a token and the token. */
  method TokenText(text: string, tokens: seq<Token<Span>>, i: nat) returns (piece: string)
    requires i < |tokens| && Printable(tokens)
    ensures piece == Comma(Views(text, tokens), i) + Piece(Views(text, tokens), i)
  {
    var it := tokens[i];
    piece := "";
    if i != 0 {
      var ctype, ptype := it.kind, tokens[i - 1].kind;
      if ctype != ArrayEnd && ctype != ObjectEnd && ptype != Object && ptype != Array {
        piece := ",";
      }
    }
    var body := "";
    match it.kind {
      case Object =>
        if it.key.Some? { body := KeyText(SliceKey(text, it.key)); }
        body := body + "{";
      case ObjectEnd => body := "}";
      case Array =>
        if it.key.Some? { body := KeyText(SliceKey(text, it.key)); }
        body := body + "[";
      case ArrayEnd => body := "]";
      case InvalidType =>
      case _ =>
        if tokens[it.parent.index].kind != Array { body := KeyText(SliceKey(text, it.key)); }
        body := body + ValueText(it.kind, SliceKey(text, it.val));
    }
    assert body == Piece(Views(text, tokens), i);
    piece := piece + body;
  }

  /** fj_get_tokens; with `calcLength` nothing is written and only the length is computed. */
  method GetTokens(text: string, tokens: seq<Token<Span>>, calcLength: bool) returns (out: string, length: nat)
    requires Printable(tokens)
    ensures length == |Print(Views(text, tokens), 0, |tokens|)|
    ensures out == if calcLength then "" else Print(Views(text, tokens), 0, |tokens|)
  {
    hide Comma, Piece;
    out, length := "", 0;
    ghost var all := Views(text, tokens);
    for i := 0 to |tokens|
      invariant length + |Print(all, i, |tokens|)| == |Print(all, 0, |tokens|)|
      invariant if calcLength then out == "" else out + Print(all, i, |tokens|) == Print(all, 0, |tokens|)
    {
      var piece := TokenText(text, tokens, i);
      if !calcLength { out := out + piece; }
      length := length + |piece|;
    }
  }

  // ---- the text of a tree ----

  /** The text of a value; `Members` are separated by commas. */
  function Render(t: Json<string>): string {
    match t
    case Leaf(kind, v) => ValueText(kind, Some(v))
    case Node(true, ms) => "{" + RenderAll(ms) + "}"
    case Node(false, ms) => "[" + RenderAll(ms) + "]"
  }

  function RenderAll(ms: Members<string>): string {
    if ms.Nil? then "" else
    Label(ms.key) + Render(ms.head) +
    (if ms.tail.Nil? then "" else "," + RenderAll(ms.tail))
  }

  /** Leaves are scalars, and exactly the members of objects have keys. */
  predicate WellKeyed<S>(t: Json<S>) {
    match t
    case Leaf(kind, _) => IsSimple(kind)
    case Node(keyed, ms) => WellKeyedAll(ms, keyed)
  }

  predicate WellKeyedAll<S>(ms: Members<S>, keyed: bool) {
    ms.Cons? ==> ms.key.Some? == keyed && WellKeyed(ms.head) && WellKeyedAll(ms.tail, keyed)
  }

  // ---- the walk writes the text of the tree ----

  lemma {:induction false} PrintSplit(w: seq<Token<string>>, i: nat, m: nat, j: nat)
    requires i <= m <= j <= |w| && Printable(w)
    ensures Print(w, i, j) == Print(w, i, m) + Print(w, m, j)
    decreases m - i
  {
    hide Comma, Piece, Printable;
    if i == m {
      assert Print(w, i, m) == "";
    } else {
      PrintSplit(w, i + 1, m, j);
      assert Comma(w, i) + Piece(w, i) + (Print(w, i + 1, m) + Print(w, m, j))
          == (Comma(w, i) + Piece(w, i) + Print(w, i + 1, m)) + Print(w, m, j);
    }
  }

  lemma {:induction false} PrintOne(w: seq<Token<string>>, i: nat)
    requires i < |w| && Printable(w)
    ensures Print(w, i, i + 1) == Comma(w, i) + Piece(w, i)
  {
    assert Print(w, i + 1, i + 1) == "";
  }

  /** The tokens `[b, b + Size(t))` of `w` lay out `t`. */
  ghost predicate Holds<S>(w: seq<Token<S>>, t: Json<S>, key: Option<S>, b: nat, parent: Link) {
    b + Size(t) <= |w| && w[b..b + Size(t)] == Flatten(t, key, b, parent)
  }

  ghost predicate HoldsAll<S>(w: seq<Token<S>>, ms: Members<S>, b: nat, parent: nat) {
    b + SizeAll(ms) <= |w| && w[b..b + SizeAll(ms)] == FlattenAll(ms, b, parent)
  }

  lemma {:induction false} FlattenNode<S>(t: Json<S>, key: Option<S>, b: nat, parent: Link)
    requires t.Node?
    ensures var f := Flatten(t, key, b, parent);
      var n := SizeAll(t.members);
      && Size(t) == n + 2
      && f[0] == Token(if t.keyed then Object else Array, key, None, parent, Len(t.members) + 1, To(b + 1 + n))
      && f[1..n + 1] == FlattenAll(t.members, b + 1, b)
      && f[n + 1] == Token(if t.keyed then ObjectEnd else ArrayEnd, None, None, To(b), 0, Nowhere)
  {
    hide FlattenAll;
  }

  lemma {:induction false} HoldsNode<S>(w: seq<Token<S>>, t: Json<S>, key: Option<S>, b: nat, parent: Link)
    requires t.Node? && Holds(w, t, key, b, parent)
    ensures var n := SizeAll(t.members);
      && w[b] == Token(if t.keyed then Object else Array, key, None, parent, Len(t.members) + 1, To(b + 1 + n))
      && w[b + 1 + n] == Token(if t.keyed then ObjectEnd else ArrayEnd, None, None, To(b), 0, Nowhere)
      && HoldsAll(w, t.members, b + 1, b)
  {
    hide Flatten, FlattenAll;
    FlattenNode(t, key, b, parent);
    var n := SizeAll(t.members);
    var f := w[b..b + Size(t)];
    assert f[0] == w[b];
    assert f[n + 1] == w[b + (n + 1)];
    SliceOfSlice(w, b, b + Size(t), 1, n + 1);
  }

  lemma {:induction false} SliceOfSlice<T>(w: seq<T>, b: nat, e: nat, i: nat, j: nat)
    requires b <= e <= |w| && i <= j <= e - b
    ensures w[b..e][i..j] == w[b + i..b + j]
  {
    forall k | 0 <= k < j - i ensures w[b..e][i..j][k] == w[b + i..b + j][k] {
      assert w[b..e][i + k] == w[b + (i + k)];
    }
  }

  lemma {:induction false} HoldsCons<S>(w: seq<Token<S>>, ms: Members<S>, b: nat, parent: nat)
    requires ms.Cons? && HoldsAll(w, ms, b, parent)
    ensures Holds(w, ms.head, ms.key, b, To(parent)) && HoldsAll(w, ms.tail, b + Size(ms.head), parent)
    ensures w[b] == Flatten(ms.head, ms.key, b, To(parent))[0]
  {
    var n, m := Size(ms.head), SizeAll(ms);
    var f := FlattenAll(ms, b, parent);
    assert f[..n] == Flatten(ms.head, ms.key, b, To(parent));
    assert f[n..] == FlattenAll(ms.tail, b + n, parent);
    assert w[b..b + n] == w[b..b + m][..n];
    assert w[b + n..b + m] == w[b..b + m][n..];
    assert w[b] == w[b..b + m][0];
  }

  /** The first token of a value never closes a container and the last one never opens one. */
  lemma {:induction false} EndTokens(w: seq<Token<string>>, t: Json<string>, key: Option<string>, b: nat, parent: Link)
    requires Holds(w, t, key, b, parent) && WellKeyed(t)
    ensures !ClosesContainer(w[b].kind) && !OpensContainer(w[b + Size(t) - 1].kind)
  {
    assert w[b] == w[b..b + Size(t)][0] && w[b + Size(t) - 1] == w[b..b + Size(t)][Size(t) - 1];
  }

  /** The key in front of a value, if it has one. */
  function Label(key: Option<string>): string {
    if key.Some? then KeyText(key) else ""
  }

  lemma {:induction false} Regroup(a: string, b: string, c: string, d: string, e: string)
    ensures (a + (b + c)) + (d + e) == a + (b + (c + d + e))
  {
  }

  /** What the tokens at both ends of a container print. */
  lemma {:induction false} PrintBrackets(w: seq<Token<string>>, t: Json<string>, key: Option<string>, b: nat, parent: Link)
    requires Printable(w) && t.Node? && Holds(w, t, key, b, parent)
    ensures Print(w, b, b + 1) == Comma(w, b) + (Label(key) + if t.keyed then "{" else "[")
    ensures Print(w, b + Size(t) - 1, b + Size(t)) == if t.keyed then "}" else "]"
  {
    hide Flatten, FlattenAll, Printable, Print, Comma, Piece, Label;
    HoldsNode(w, t, key, b, parent);
    PrintOne(w, b);
    PrintOne(w, b + Size(t) - 1);
    OpeningPiece(w, b);
    ClosingPiece(w, b + Size(t) - 1);
  }

  lemma {:induction false} OpeningPiece(w: seq<Token<string>>, i: nat)
    requires i < |w| && Printable(w) && OpensContainer(w[i].kind)
    ensures Piece(w, i) == Label(w[i].key) + if w[i].kind == Object then "{" else "["
  {
    hide Printable, KeyText;
  }

  lemma {:induction false} ClosingPiece(w: seq<Token<string>>, i: nat)
    requires i < |w| && Printable(w) && ClosesContainer(w[i].kind)
    ensures Comma(w, i) + Piece(w, i) == if w[i].kind == ObjectEnd then "}" else "]"
  {
    hide Printable, KeyText;
  }

  lemma {:induction false} PrintLeaf(w: seq<Token<string>>, t: Json<string>, key: Option<string>, b: nat, parent: nat)
    requires Printable(w) && Holds(w, t, key, b, To(parent)) && WellKeyed(t) && t.Leaf?
    requires parent < |w| && (key.Some? <==> w[parent].kind != Array)
    ensures Print(w, b, b + Size(t)) == Comma(w, b) + (Label(key) + Render(t))
  {
    hide KeyText, ValueText;
    PrintOne(w, b);
    assert w[b] == w[b..b + 1][0];
  }

  lemma {:induction false} PrintNode(w: seq<Token<string>>, t: Json<string>, key: Option<string>, b: nat, parent: Link)
    requires Printable(w) && Holds(w, t, key, b, parent) && WellKeyed(t) && t.Node?
    ensures Print(w, b, b + Size(t)) == Comma(w, b) + (Label(key) + Render(t))
    decreases t
  {
    hide Print, Printable, Flatten, FlattenAll, RenderAll, Label, Comma;
    var e := b + Size(t) - 1;
    HoldsNode(w, t, key, b, parent);
    PrintMembers(w, t.members, t.keyed, b + 1, b);
    PrintBrackets(w, t, key, b, parent);
    PrintSplit(w, b, b + 1, e + 1);
    PrintSplit(w, b + 1, e, e + 1);
    Regroup(Comma(w, b), Label(key), if t.keyed then "{" else "[", RenderAll(t.members), if t.keyed then "}" else "]");
  }

  lemma {:induction false} PrintNothing(w: seq<Token<string>>, b: nat)
    requires b <= |w| && Printable(w)
    ensures Print(w, b, b) == RenderAll(Nil) && SizeAll<string>(Nil) == 0
  {
  }

  /** Members print as their text, behind a comma unless the container opens just in front of them. */
  lemma {:induction false} PrintMembers(w: seq<Token<string>>, ms: Members<string>, keyed: bool, b: nat, parent: nat)
    requires Printable(w) && HoldsAll(w, ms, b, parent) && WellKeyedAll(ms, keyed)
    requires parent < b && w[parent].kind == (if keyed then Object else Array)
    ensures Print(w, b, b + SizeAll(ms)) == if ms.Nil? || OpensContainer(w[b - 1].kind) then RenderAll(ms) else "," + RenderAll(ms)
    decreases ms
  {
    hide Print, Printable, Comma, Flatten, FlattenAll, Render, RenderAll, Label;
    if ms.Nil? {
      PrintNothing(w, b);
    } else {
      var m := b + Size(ms.head);
      HoldsCons(w, ms, b, parent);
      if ms.head.Node? {
        PrintNode(w, ms.head, ms.key, b, To(parent));
      } else {
        PrintLeaf(w, ms.head, ms.key, b, parent);
      }
      EndTokens(w, ms.head, ms.key, b, To(parent));
      PrintMembers(w, ms.tail, keyed, m, parent);
      JoinMembers(w, ms, b, m);
    }
  }

  lemma {:induction false} JoinMembers(w: seq<Token<string>>, ms: Members<string>, b: nat, m: nat)
    requires ms.Cons? && Printable(w) && 0 < b < m <= b + SizeAll(ms) <= |w| && m == b + Size(ms.head)
    requires !ClosesContainer(w[b].kind)
    requires Print(w, b, m) == Comma(w, b) + (Label(ms.key) + Render(ms.head))
    requires Print(w, m, b + SizeAll(ms)) == if ms.tail.Nil? then RenderAll(ms.tail) else "," + RenderAll(ms.tail)
    ensures Print(w, b, b + SizeAll(ms)) == if OpensContainer(w[b - 1].kind) then RenderAll(ms) else "," + RenderAll(ms)
  {
    hide Print, Printable, Label, Render;
    PrintSplit(w, b, m, b + SizeAll(ms));
    var l, r := Label(ms.key), Render(ms.head);
    var rest := Print(w, m, b + SizeAll(ms));
    assert RenderAll(ms) == l + r + rest;
    assert (Comma(w, b) + (l + r)) + rest == Comma(w, b) + (l + r + rest);
  }

  lemma {:induction false} FlatPrintable(t: Json<string>, key: Option<string>, b: nat, parent: Link)
    requires WellKeyed(t)
    ensures forall i :: 0 <= i < Size(t) && IsSimple(Flatten(t, key, b, parent)[i].kind) ==>
              Flatten(t, key, b, parent)[i].parent == parent
              || (Flatten(t, key, b, parent)[i].parent.To? && b <= Flatten(t, key, b, parent)[i].parent.index < b + Size(t))
  {
    if t.Node? {
      FlatPrintableAll(t.members, t.keyed, b + 1, b);
    }
  }

  lemma {:induction false} FlatPrintableAll(ms: Members<string>, keyed: bool, b: nat, parent: nat)
    requires WellKeyedAll(ms, keyed)
    ensures forall i :: 0 <= i < SizeAll(ms) && IsSimple(FlattenAll(ms, b, parent)[i].kind) ==>
              FlattenAll(ms, b, parent)[i].parent == To(parent)
              || (FlattenAll(ms, b, parent)[i].parent.To? && b <= FlattenAll(ms, b, parent)[i].parent.index < b + SizeAll(ms))
  {
    if ms.Cons? {
      FlatPrintable(ms.head, ms.key, b, To(parent));
      FlatPrintableAll(ms.tail, keyed, b + Size(ms.head), parent);
    }
  }

  /** Printing the flat layout of a container writes the text of the container. */
  lemma {:induction false} PrintIsRender(t: Json<string>)
    requires t.Node? && WellKeyed(t)
    ensures Printable(Flatten(t, None, 0, Nowhere))
    ensures Print(Flatten(t, None, 0, Nowhere), 0, Size(t)) == Render(t)
  {
    var w := Flatten(t, None, 0, Nowhere);
    FlatPrintableAll(t.members, t.keyed, 1, 0);
    assert forall i :: 1 <= i < Size(t) - 1 ==> w[i] == FlattenAll(t.members, 1, 0)[i - 1];
    assert w[0..Size(t)] == w;
    PrintNode(w, t, None, 0, Nowhere);
  }
}
