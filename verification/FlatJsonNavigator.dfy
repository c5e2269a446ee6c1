/** The `fjson` object: loading a text into token storage, printing it, and finding children by
    skipping whole subtrees through their `__end` links. */
module FlatJsonNavigator {
  import opened Options
  import opened FlatJsonLexer
  import opened FlatJsonTree
  import opened FlatJsonParser
  import opened FlatJsonPrinter
  import opened FlatJsonDocument
  import opened FlatJsonContent
  import opened FlatJsonSpelling
  import opened FlatJsonRoundTrip
  import opened FlatJsonStructure
  import opened FlatJsonGrammar

  // ---- children of a tree ----

  function ChildAt<S>(ms: Members<S>, i: nat): Json<S>
    requires i < Len(ms)
  {
    if i == 0 then ms.head else ChildAt(ms.tail, i - 1)
  }

  function KeyAt<S>(ms: Members<S>, i: nat): Option<S>
    requires i < Len(ms)
  {
    if i == 0 then ms.key else KeyAt(ms.tail, i - 1)
  }

  /** Index of the first token of child `i` when the first child starts at `base`. */
  function Offset<S>(ms: Members<S>, i: nat, base: nat): nat
    requires i <= Len(ms)
  {
    if i == 0 then base else Offset(ms.tail, i - 1, base + Size(ms.head))
  }

  /** strncmp over two stretches of equal length: bytes behind a common NUL are not compared. */
  predicate SameUpToNul(a: string, b: string)
    requires |a| == |b|
  {
    a == "" || (a[0] == b[0] && (a[0] == NUL || SameUpToNul(a[1..], b[1..])))
  }

  predicate KeyMatches(own: Option<string>, key: string) {
    own.Some? && |own.value| == |key| && SameUpToNul(own.value, key)
  }

  /** Position of the first NUL, or the length. */
  function FirstNul(s: string): (p: nat)
    ensures p <= |s| && (p < |s| ==> s[p] == NUL) && forall k :: 0 <= k < p ==> s[k] != NUL
  {
    if s == "" || s[0] == NUL then 0 else 1 + FirstNul(s[1..])
  }

  /** What the comparison compares. */
  lemma {:induction false} ComparedPart(a: string, b: string)
    requires |a| == |b|
    ensures SameUpToNul(a, b) <==> a == b || (FirstNul(b) < |b| && a[..FirstNul(b) + 1] == b[..FirstNul(b) + 1])
  {
    if a != "" {
      var p := FirstNul(b);
      assert a == [a[0]] + a[1..] && b == [b[0]] + b[1..];
      if a[0] == b[0] && a[0] != NUL {
        ComparedPart(a[1..], b[1..]);
        if p < |b| {
          assert a[..p + 1] == [a[0]] + a[1..][..p] && b[..p + 1] == [b[0]] + b[1..][..p];
          assert a[1..][..p] == a[..p + 1][1..] && b[1..][..p] == b[..p + 1][1..];
        }
      } else if p < |b| && a[0] != b[0] {
        assert a[..p + 1][0] != b[..p + 1][0];
      }
    }
  }

  /** A key is matched by exactly itself if and only if it has no NUL in front of its last byte. */
  lemma {:induction false} KeyMatchesExactly(key: string)
    ensures (forall own: string :: KeyMatches(Some(own), key) <==> own == key) <==> key == "" || NUL !in key[..|key| - 1]
  {
    hide SameUpToNul;
    var p := FirstNul(key);
    if p + 1 < |key| {
      assert key[..|key| - 1][p] == NUL;
      var own := key[..p + 1] + Filler(|key| - p - 1, if key[p + 1] == 'a' then 'b' else 'a');
      ComparedPart(own, key);
      assert own[..p + 1] == key[..p + 1] && own[p + 1] != key[p + 1];
      assert KeyMatches(Some(own), key) && own != key;
    } else {
      forall own: string ensures KeyMatches(Some(own), key) <==> own == key {
        if |own| == |key| {
          ComparedPart(own, key);
          assert p < |key| ==> own[..p + 1] == own && key[..p + 1] == key;
        }
      }
    }
  }

  function Filler(n: nat, x: char): (s: string)
    ensures |s| == n && forall k :: 0 <= k < n ==> s[k] == x
  {
    seq(n, _ => x)
  }

  /** The key with everything behind its first NUL replaced. */
  function Refilled(key: string, x: char): string
    requires FirstNul(key) < |key|
  {
    var p := FirstNul(key);
    key[..p + 1] + Filler(|key| - p - 1, x)
  }

  lemma {:induction false} FillerIsBody(n: nat, x: char)
    requires Plain(x)
    ensures StringBody(Filler(n, x))
  {
    if n > 0 {
      FillerIsBody(n - 1, x);
      assert Filler(n, x)[1..] == Filler(n - 1, x);
    }
  }

  /** A NUL in a string body is inside a multi-byte character, so whatever follows it can be replaced. */
  lemma {:induction false} RefillBody(s: string, p: nat, x: char)
    requires StringBody(s) && p < |s| && s[p] == NUL && Plain(x)
    ensures StringBody(s[..p + 1] + Filler(|s| - p - 1, x))
    decreases |s|
  {
    hide StringBody;
    var front, fill := s[..p + 1], Filler(|s| - p - 1, x);
    var t, n := front + fill, ChunkLength(s);
    if p >= n {
      RefillBody(s[n..], p - n, x);
      RefillTail(s, p, n, fill);
      SameChunk(s, t, n);
    } else {
      ChunkWithNul(s, p);
      assert t[n..] == Filler(|s| - n, x);
      FillerIsBody(|s| - n, x);
      MultiByteBody(t);
    }
  }

  lemma {:induction false} RefillTail(s: string, p: nat, n: nat, fill: string)
    requires n <= p < |s|
    ensures (s[..p + 1] + fill)[n..] == s[n..][..p - n + 1] + fill && (s[..p + 1] + fill)[..n] == s[..n]
  {
    var l, r := s[..p + 1][n..], s[n..][..p - n + 1];
    assert l == s[n..p + 1] == r;
    assert (s[..p + 1] + fill)[n..] == l + fill;
  }

  lemma {:induction false} MultiByteBody(t: string)
    requires t != "" && t[0] as int >= 0x80 && Utf8Len(t[0]) <= |t| && StringBody(t[Utf8Len(t[0])..])
    ensures StringBody(t)
  {
  }

  /** Length of the first character of a string body. */
  function ChunkLength(s: string): (n: nat)
    requires StringBody(s) && s != ""
    ensures 0 < n <= |s| && StringBody(s[n..])
  {
    if s[0] == '\\' then (if s[1] == 'u' then 6 else 2) else Utf8Len(s[0])
  }

  lemma {:induction false} ChunkWithNul(s: string, p: nat)
    requires StringBody(s) && s != "" && p < ChunkLength(s) && s[p] == NUL
    ensures s[0] as int >= 0x80 && ChunkLength(s) == Utf8Len(s[0])
  {
    if s[0] == '\\' { EscapeWithoutNul(s); }
  }

  lemma {:induction false} EscapeWithoutNul(s: string)
    requires StringBody(s) && s != "" && s[0] == '\\'
    ensures forall k :: 0 <= k < ChunkLength(s) ==> s[k] != NUL
  {
    if s[1] == 'u' { assert forall k :: 2 <= k < 6 ==> s[k] == s[2..6][k - 2]; }
  }

  lemma {:induction false} SameChunk(s: string, t: string, n: nat)
    requires StringBody(s) && s != "" && n == ChunkLength(s) <= |t| && t[..n] == s[..n] && StringBody(t[n..])
    ensures StringBody(t)
  {
    assert forall k :: 0 <= k < n ==> t[k] == t[..n][k] && s[k] == s[..n][k];
    if n == 6 { assert t[2..6] == s[2..6]; }
  }

  /** A key of a document: what can stand between quotes, short enough for its 8-bit length. */
  predicate DocumentKey(own: string) { IsStringBody(own) && |own| < KLEN_MAX }

  /** Among the keys a document can hold, a search is exact unless something follows the first NUL of the key and its
      part up to there can begin a document key of this length. */
  lemma {:induction false} DocumentKeyExactIff(key: string)
    ensures (forall own: string :: DocumentKey(own) && KeyMatches(Some(own), key) ==> own == key) <==>
      !(FirstNul(key) + 1 < |key| < KLEN_MAX && StringBody(Refilled(key, 'a')))
  {
    hide SameUpToNul, IsStringBody, StringBody;
    var p := FirstNul(key);
    if p + 1 < |key| < KLEN_MAX && StringBody(Refilled(key, 'a')) {
      var x := if key[p + 1] == 'a' then 'b' else 'a';
      var own := Refilled(key, x);
      var r := Refilled(key, 'a');
      RefillBody(r, p, x);
      assert r[..p + 1] + Filler(|r| - p - 1, x) == own;
      BodyGrammar(own);
      ComparedPart(own, key);
      assert own[..p + 1] == key[..p + 1] && own[p + 1] != key[p + 1];
      assert DocumentKey(own) && KeyMatches(Some(own), key) && own != key;
    } else {
      forall own: string | DocumentKey(own) && KeyMatches(Some(own), key) ensures own == key {
        if own != key { Confused(own, key); assert false; }
      }
    }
  }

  lemma {:induction false} Confused(own: string, key: string)
    requires DocumentKey(own) && KeyMatches(Some(own), key) && own != key
    ensures FirstNul(key) + 1 < |key| < KLEN_MAX && StringBody(Refilled(key, 'a'))
  {
    hide SameUpToNul, IsStringBody, StringBody;
    var p := FirstNul(key);
    ComparedPart(own, key);
    BodyGrammar(own);
    assert own[..|own|] == own && key[..|key|] == key;
    assert own[p] == own[..p + 1][p] == key[..p + 1][p];
    RefillBody(own, p, 'a');
    assert own[..p + 1] + Filler(|own| - p - 1, 'a') == Refilled(key, 'a');
  }

  /** A NUL inside a multi-byte character passes the reader, and `find` then confuses keys. */
  lemma {:induction false} NulConfusesKeys()
    ensures exists own: string, key: string :: DocumentKey(own) && own != key && KeyMatches(Some(own), key)
  {
    var own := ['\U{C3}', NUL, 'a'];
    var key := ['\U{C3}', NUL, 'b'];
    assert own[2..][1..] == "" && own[2..] == ['a'];
    assert StringBody(own[2..]);
    assert StringBody(own);
    BodyGrammar(own);
    assert own[1..][0] == NUL;
    assert own[2] != key[2];
    assert KeyMatches(Some(own), key);
  }

  // ---- where children lie ----

  lemma {:induction false} OffsetBounds<S>(ms: Members<S>, i: nat, base: nat)
    requires i <= Len(ms)
    ensures Offset(ms, i, base) <= base + SizeAll(ms)
    ensures i < Len(ms) ==> Offset(ms, i + 1, base) == Offset(ms, i, base) + Size(ChildAt(ms, i))
    ensures i < Len(ms) ==> Offset(ms, i, base) + Size(ChildAt(ms, i)) <= base + SizeAll(ms)
    ensures i == Len(ms) ==> Offset(ms, i, base) == base + SizeAll(ms)
    ensures Offset(ms, 0, base) == base
  {
    if i > 0 { OffsetBounds(ms.tail, i - 1, base + Size(ms.head)); }
  }

  lemma {:induction false} HoldsChild<S>(tokens: seq<Token<S>>, ms: Members<S>, b: nat, parent: nat, i: nat)
    requires HoldsAll(tokens, ms, b, parent) && i < Len(ms)
    ensures Holds(tokens, ChildAt(ms, i), KeyAt(ms, i), Offset(ms, i, b), To(parent))
    decreases ms
  {
    hide Holds, HoldsAll;
    HoldsCons(tokens, ms, b, parent);
    if i > 0 { HoldsChild(tokens, ms.tail, b + Size(ms.head), parent, i - 1); }
  }

  /** The first token of a child tells where the next one starts. */
  lemma {:induction false} FirstToken<S>(tokens: seq<Token<S>>, t: Json<S>, key: Option<S>, b: nat, parent: Link)
    requires Holds(tokens, t, key, b, parent) && WellKeyed(t)
    ensures tokens[b].key == key
    ensures t.Leaf? ==> IsSimple(tokens[b].kind)
    ensures t.Node? ==> OpensContainer(tokens[b].kind) && tokens[b].end == To(b + Size(t) - 1)
  {
    assert tokens[b] == tokens[b..b + Size(t)][0];
  }

  lemma {:induction false} ChildKeyed<S>(ms: Members<S>, keyed: bool, i: nat)
    requires WellKeyedAll(ms, keyed) && i < Len(ms)
    ensures WellKeyed(ChildAt(ms, i)) && KeyAt(ms, i).Some? == keyed
  {
    if i > 0 { ChildKeyed(ms.tail, keyed, i - 1); }
  }

  lemma {:induction false} KeyedByContent(text: string, t: Json<Span>)
    ensures WellKeyed(Content(text, t)) <==> WellKeyed(t)
    decreases t
  {
    if t.Node? { KeyedByContentAll(text, t.members, t.keyed); }
  }

  lemma {:induction false} KeyedByContentAll(text: string, ms: Members<Span>, keyed: bool)
    ensures WellKeyedAll(ContentAll(text, ms), keyed) <==> WellKeyedAll(ms, keyed)
    decreases ms
  {
    if ms.Cons? {
      KeyedByContent(text, ms.head);
      KeyedByContentAll(text, ms.tail, keyed);
    }
  }

  lemma {:induction false} ParsedIsWellKeyed(text: string)
    requires ParseValue(text, 0).Good?
    ensures WellKeyed(ParseValue(text, 0).value)
  {
    hide ParseValue, Content;
    var t := ParseValue(text, 0).value;
    ParsedIsWellFormed(text, 0);
    WellFormedIsWellKeyed(Content(text, t));
    KeyedByContent(text, t);
  }

  /** The structure of every parsed document, in terms of its tokens alone. */
  lemma {:induction false} ParsedIsStructured(text: string)
    requires ParseValue(text, 0).Good?
    ensures Structured(RootTokens(ParseValue(text, 0).value), 0, Nowhere)
  {
    hide ParseValue;
    var t := ParseValue(text, 0).value;
    ParsedIsWellKeyed(text);
    if t.Node? { NodeStructured(t, None, 0, Nowhere); }
  }

  // ---- the fjson object ----

  /** The pair of token pointers a search returns, nothing, or the exception for the wrong type. */
  datatype Found = Nothing | Range(first: nat, second: nat) | WrongType

  class Fjson {
    var text: string
    var storage: seq<Token<Span>>
    var loaded: bool
    var beg: nat
    var end: nat
    var err: ErrorCode

    /** Storage of `reserved` fresh tokens. */
    constructor (reserved: nat)
      ensures storage == seq(reserved, _ => BLANK) && !loaded && err == Fine
    {
      text := "";
      storage := seq(reserved, _ => BLANK);
      loaded, beg, end, err := false, 0, 0, Fine;
    }

    /** The object shows the tree `t` laid out at `beg`. */
    ghost predicate Shows(t: Json<Span>, key: Option<Span>, parent: Link)
      reads this
    {
      loaded && Holds(storage, t, key, beg, parent) && WellKeyed(t) && ChildsFit(t)
    }

    method Load(source: string) returns (ok: bool)
      requires BlankFrom(storage, 0)
      modifies this
      ensures source == "" ==> !ok && storage == old(storage) && loaded == old(loaded) && err == old(err)
      ensures source != "" ==>
        var r := ParseValue(source, 0);
        && (ok <==> r.Good? && Fits(r.value) && (if old(storage) == [] then TailAccepted(source, r.next) else Size(r.value) <= |old(storage)|))
        && (!ok ==> err != Fine && (old(storage) == [] ==> err != NoFreeTokens) && loaded == old(loaded))
        && (ok ==> text == source && storage == RootTokens(r.value) && beg == 0 && end == |storage| && err == old(err))
        && (ok && r.value.Node? ==> Shows(r.value, None, Nowhere))
    {
      if source == "" { return false; }
      if storage == [] {
        var ec, n := NumTokens(source);
        if ec != Fine {
          err := ec;
          return false;
        }
        storage := seq(n, _ => BLANK);
      }
      var ec, tokens := ParseTokens(source, storage);
      if ec != Fine {
        err := ec;
        return false;
      }
      text, storage := source, tokens;
      loaded, beg, end := true, 0, |storage|;
      ParsedIsWellKeyed(source);
      assert storage[0..|storage|] == storage;
      ok := true;
    }

    /** dump: one pass for the length, and a second one that fills the string. The second pass is written inside an
        `assert`, so that a build without assertions returns NULs. */
    method Dump(assertions: bool) returns (res: string)
      requires loaded && beg == 0 && Printable(storage)
      ensures |res| == |Print(Views(text, storage), 0, |storage|)|
      ensures res == if assertions then Print(Views(text, storage), 0, |storage|) else seq(|res|, _ => NUL)
    {
      var _, strlen := GetTokens(text, storage, true);
      res := seq(strlen, _ => NUL);
      if assertions {
        var filled, n := GetTokens(text, storage, false);
        assert strlen == n;
        res := filled;
      }
    }

    /** size: direct children of a container, 1 for a scalar. */
    method Count(ghost t: Json<Span>, ghost key: Option<Span>, ghost parent: Link) returns (n: int)
      requires Shows(t, key, parent)
      ensures n == if t.Node? then Len(t.members) else 1
    {
      FirstToken(storage, t, key, beg, parent);
      if t.Node? { HoldsNode(storage, t, key, beg, parent); }
      n := if !IsSimple(storage[beg].kind) then storage[beg].childs - 1 else 1;
    }

    /** The common end of both searches: the range of the value whose first token is at `at`. */
    method RangeAt(at: nat, ghost ms: Members<Span>, ghost keyed: bool, ghost i: nat) returns (r: Found)
      requires HoldsAll(storage, ms, beg + 1, beg) && WellKeyedAll(ms, keyed) && i < Len(ms)
      requires at == Offset(ms, i, beg + 1)
      ensures r.Range? && IsChild(r, ms, i)
    {
      hide HoldsAll, WellKeyedAll, Holds, Offset;
      StepOver(ms, keyed, i);
      SizeOfLeaf(ChildAt(ms, i));
      r := if IsSimple(storage[at].kind) then Range(at, at + 1) else Range(at, storage[at].end.index);
    }

    /** The step both searches take: behind a scalar, or behind the END token of a container. */
    method Advance(at: nat, ghost ms: Members<Span>, ghost keyed: bool, ghost i: nat) returns (next: nat)
      requires HoldsAll(storage, ms, beg + 1, beg) && WellKeyedAll(ms, keyed) && i < Len(ms)
      requires at == Offset(ms, i, beg + 1)
      ensures next == Offset(ms, i + 1, beg + 1)
    {
      hide HoldsAll, WellKeyedAll, Holds, Offset;
      StepOver(ms, keyed, i);
      SizeOfLeaf(ChildAt(ms, i));
      next := if IsSimple(storage[at].kind) then at + 1 else storage[at].end.index + 1;
    }

    /** What a container shows of its own tokens. */
    lemma {:induction false} ShowsNode(t: Json<Span>, key: Option<Span>, parent: Link)
      requires Shows(t, key, parent)
      ensures beg < |storage| && (t.Leaf? ==> storage[beg].kind != Array && storage[beg].kind != Object)
      ensures t.Node? ==>
        && HoldsAll(storage, t.members, beg + 1, beg) && WellKeyedAll(t.members, t.keyed)
        && storage[beg].kind == (if t.keyed then Object else Array)
        && storage[beg].childs == Len(t.members) + 1 <= CHILDS_MAX
        && storage[beg].end == To(beg + 1 + SizeAll(t.members))
    {
      FirstToken(storage, t, key, beg, parent);
      if t.Node? { HoldsNode(storage, t, key, beg, parent); }
    }

    /** find(idx): child `idx` of an array, nothing beyond the last. */
    method FindIndex(idx: nat, ghost t: Json<Span>, ghost key: Option<Span>, ghost parent: Link) returns (r: Found)
      requires Shows(t, key, parent)
      ensures r.WrongType? <==> !(t.Node? && !t.keyed)
      ensures t.Node? && !t.keyed ==>
        && (r == Nothing <==> idx >= Len(t.members))
        && (idx < Len(t.members) ==> r.Range? && IsChild(r, t.members, idx))
    {
      hide Shows, HoldsAll, WellKeyedAll, Holds, Offset, Len, IsChild;
      ShowsNode(t, key, parent);
      if storage[beg].kind != Array { return WrongType; }
      if idx >= (storage[beg].childs - 1) % (CHILDS_MAX + 1) { return Nothing; }
      var at, stop, left := beg + 1, storage[beg].end.index, idx;
      ghost var ms := t.members;
      assert idx < Len(ms);
      OffsetBounds(ms, 0, beg + 1);
      while at != stop && left != 0
        invariant 0 <= left <= idx < Len(ms)
        invariant at == Offset(ms, idx - left, beg + 1) < stop
        decreases left
      {
        at := Advance(at, ms, false, idx - left);
        left := left - 1;
        OffsetBounds(ms, idx - left, beg + 1);
      }
      r := RangeAt(at, ms, false, idx);
    }

    /** find(key): the first member of an object whose key matches, or nothing. */
    method FindKey(name: string, ghost t: Json<Span>, ghost key: Option<Span>, ghost parent: Link)
      returns (r: Found, ghost i: nat)
      requires Shows(t, key, parent)
      ensures r.WrongType? <==> !(t.Node? && t.keyed)
      ensures t.Node? && t.keyed ==>
        && i <= Len(t.members)
        && (forall k :: 0 <= k < i ==> !KeyMatches(SliceKey(text, KeyAt(t.members, k)), name))
        && (r == Nothing <==> i == Len(t.members))
        && (i < Len(t.members) ==>
              r.Range? && IsChild(r, t.members, i) && KeyMatches(SliceKey(text, KeyAt(t.members, i)), name))
    {
      hide Shows, HoldsAll, WellKeyedAll, Holds, Offset, Len, KeyAt, IsChild, SameUpToNul;
      i := 0;
      ShowsNode(t, key, parent);
      if storage[beg].kind != Object { return WrongType, i; }
      var at, stop := beg + 1, storage[beg].end.index;
      ghost var ms := t.members;
      OffsetBounds(ms, 0, beg + 1);
      while at != stop
        invariant i <= Len(ms) && at == Offset(ms, i, beg + 1)
        invariant forall k :: 0 <= k < i ==> !KeyMatches(SliceKey(text, KeyAt(ms, k)), name)
        decreases Len(ms) - i
      {
        OffsetBounds(ms, i, beg + 1);
        StepOver(ms, true, i);
        if KeyMatches(SliceKey(text, storage[at].key), name) {
          r := RangeAt(at, ms, true, i);
          return;
        }
        at := Advance(at, ms, true, i);
        i := i + 1;
      }
      OffsetBounds(ms, i, beg + 1);
      if i < Len(ms) { StepOver(ms, true, i); }
      r := Nothing;
    }

    /** The range is that of child `i`: it starts at the child's first token, and ends behind a scalar or at
        a container's END token. */
    ghost predicate IsChild(r: Found, ms: Members<Span>, i: nat)
      requires r.Range? && i < Len(ms)
      reads this
    {
      && r.first == Offset(ms, i, beg + 1)
      && r.second == r.first + (if ChildAt(ms, i).Leaf? then 1 else Size(ChildAt(ms, i)) - 1)
      && Holds(storage, ChildAt(ms, i), KeyAt(ms, i), r.first, To(beg))
    }

    /** What a search sees at child `i` and where it goes from there. */
    lemma {:induction false} StepOver(ms: Members<Span>, keyed: bool, i: nat)
      requires HoldsAll(storage, ms, beg + 1, beg) && WellKeyedAll(ms, keyed) && i < Len(ms)
      ensures var at, child := Offset(ms, i, beg + 1), ChildAt(ms, i);
        && at < |storage| && Holds(storage, child, KeyAt(ms, i), at, To(beg))
        && KeyAt(ms, i).Some? == keyed && storage[at].key == KeyAt(ms, i)
        && at + Size(child) == Offset(ms, i + 1, beg + 1) <= beg + 1 + SizeAll(ms)
        && (child.Leaf? ==> IsSimple(storage[at].kind))
        && (child.Node? ==> OpensContainer(storage[at].kind) && storage[at].end == To(at + Size(child) - 1))
    {
      hide HoldsAll, WellKeyed, WellKeyedAll, Flatten, FlattenAll;
      OffsetBounds(ms, i, beg + 1);
      HoldsChild(storage, ms, beg + 1, beg, i);
      ChildKeyed(ms, keyed, i);
      assert ChildAt(ms, i).Leaf? || ChildAt(ms, i).Node?;
      FirstToken(storage, ChildAt(ms, i), KeyAt(ms, i), Offset(ms, i, beg + 1), To(beg));
      SizeOfLeaf(ChildAt(ms, i));
    }
  }

  lemma {:induction false} SizeOfLeaf<S>(t: Json<S>)
    ensures t.Leaf? ==> Size(t) == 1
  {
  }

  /** What may stand behind the value: a single byte of any kind, or white space. */
  lemma {:induction false} TailIff(text: string, next: nat)
    requires next <= |text|
    ensures TailAccepted(text, next) <==> |text| - next == 1 || Blank(text[next..])
  {
    hide Blank;
    SkippedIsBlank(text, next);
    if SkipWs(text, next) == |text| {
      assert text[next..] == text[next..|text|];
    } else if Blank(text[next..]) {
      SkipBlank(text, next, text[next..]);
      assert false;
    }
  }

  lemma {:induction false} PrintableByView(text: string, tokens: seq<Token<Span>>)
    requires Printable(Views(text, tokens))
    ensures Printable(tokens)
  {
    var vs := Views(text, tokens);
    forall i | 0 <= i < |tokens| ensures vs[i].kind == tokens[i].kind && vs[i].parent == tokens[i].parent {}
  }

  lemma {:induction false} NothingToRead()
    ensures ParseValue("", 0).Bad?
  {
  }

  /** Every container that loads can be dumped and loaded again, and the second object holds the same tokens: types,
      bytes of keys and values, links and counts. */
  method LoadDumpLoad(source: string) returns (a: Fjson, ok: bool, b: Fjson, again: bool)
    requires source != ""
    ensures ok <==> ParseValue(source, 0).Good? && TailAccepted(source, ParseValue(source, 0).next) && Fits(ParseValue(source, 0).value)
    ensures ok && ParseValue(source, 0).value.Node? ==> again && Views(b.text, b.storage) == Views(a.text, a.storage)
  {
    hide ParseValue, Print, Printable, Flatten, Fits, Views;
    a := new Fjson(0);
    b := new Fjson(0);
    again := false;
    ok := a.Load(source);
    if ok {
      var t := ParseValue(source, 0).value;
      if t.Node? {
        RoundTrip(source);
        PrintableByView(source, a.storage);
        var printed := a.Dump(true);
        NothingToRead();
        assert TailAccepted(printed, |printed|);
        again := b.Load(printed);
      }
    }
  }
}
