/** What the links and counters in a flat layout say, without mentioning the tree: every container
    knows its END token, ranges nest, every token knows the innermost container around it, and a
    child counter is the number of tokens that name the container as their parent. */
module FlatJsonStructure {
  import opened Options
  import opened FlatJsonLexer
  import opened FlatJsonTree
  import opened FlatJsonPrinter

  /** Number of tokens that have `p` as their parent. */
  function CountParent<S>(f: seq<Token<S>>, p: nat): nat {
    if f == [] then 0 else (if f[0].parent == To(p) then 1 else 0) + CountParent(f[1..], p)
  }

  /** The token at `b + i` opens a container. */
  predicate Opens<S>(f: seq<Token<S>>, i: nat) { i < |f| && OpensContainer(f[i].kind) }

  /** A container's `__end` is its matching END token, which has the container as its parent. */
  ghost predicate EndsMatch<S>(f: seq<Token<S>>, b: nat) {
    forall i: nat {:trigger f[i].end} :: Opens(f, i) ==>
      && f[i].end.To? && b + i < f[i].end.index < b + |f|
      && var e := f[f[i].end.index - b];
      e.kind == (if f[i].kind == Object then ObjectEnd else ArrayEnd) && e.parent == To(b + i)
  }

  /** Two containers are disjoint, or the later one lies inside the earlier one. */
  ghost predicate RangesNest<S>(f: seq<Token<S>>, b: nat)
    requires EndsMatch(f, b)
  {
    forall i: nat, j: nat {:trigger f[i].end, f[j].end} :: i < j && Opens(f, i) && Opens(f, j) ==>
      f[i].end.index < b + j || f[j].end.index < f[i].end.index
  }

  /** A token's parent is the outer one or a container of `f` around it. */
  ghost predicate ParentEncloses<S>(f: seq<Token<S>>, b: nat, outer: Link, i: nat)
    requires i < |f| && EndsMatch(f, b)
  {
    f[i].parent != outer ==>
      && f[i].parent.To? && b <= f[i].parent.index < b + i
      && Opens(f, f[i].parent.index - b) && b + i <= f[f[i].parent.index - b].end.index
  }

  ghost predicate ParentsEnclose<S>(f: seq<Token<S>>, b: nat, outer: Link)
    requires EndsMatch(f, b)
  {
    forall i: nat {:trigger ParentEncloses(f, b, outer, i)} :: i < |f| ==> ParentEncloses(f, b, outer, i)
  }

  /** No container around a token starts behind its parent. */
  ghost predicate ParentsInnermost<S>(f: seq<Token<S>>, b: nat)
    requires EndsMatch(f, b)
  {
    forall i: nat, q: nat {:trigger f[i].parent, f[q].end} ::
      q < i < |f| && Opens(f, q) && b + i <= f[q].end.index ==> f[i].parent.To? && b + q <= f[i].parent.index
  }

  /** `__childs` counts the tokens with this parent: the direct children and the END token. */
  ghost predicate CountersExact<S>(f: seq<Token<S>>, b: nat) {
    forall i: nat {:trigger f[i].childs} :: Opens(f, i) ==> f[i].childs == CountParent(f, b + i)
  }

  ghost predicate Structured<S>(f: seq<Token<S>>, b: nat, outer: Link) {
    EndsMatch(f, b) && RangesNest(f, b) && ParentsEnclose(f, b, outer) && ParentsInnermost(f, b) && CountersExact(f, b)
  }

  lemma {:induction false} CountAppend<S>(f: seq<Token<S>>, g: seq<Token<S>>, p: nat)
    ensures CountParent(f + g, p) == CountParent(f, p) + CountParent(g, p)
  {
    if f == [] {
      assert f + g == g;
    } else {
      assert (f + g)[1..] == f[1..] + g;
      CountAppend(f[1..], g, p);
    }
  }

  /** Nobody outside a stretch names a token of it as parent. */
  lemma {:induction false} CountOutside<S>(f: seq<Token<S>>, p: nat)
    requires forall i {:trigger f[i].parent} :: 0 <= i < |f| ==> f[i].parent != To(p)
    ensures CountParent(f, p) == 0
  {
    if f != [] {
      assert f[0].parent != To(p);
      CountOutside(f[1..], p);
    }
  }

  lemma {:induction false} ParentsElsewhere<S>(f: seq<Token<S>>, b: nat, outer: Link, p: nat)
    requires EndsMatch(f, b) && ParentsEnclose(f, b, outer) && outer != To(p) && (p < b || p >= b + |f|)
    ensures CountParent(f, p) == 0
  {
    forall i | 0 <= i < |f| ensures f[i].parent != To(p) {
      assert ParentEncloses(f, b, outer, i);
    }
    CountOutside(f, p);
  }

  // ---- one stretch behind another ----

  lemma {:induction false} ConcatEnds<S>(f: seq<Token<S>>, g: seq<Token<S>>, b: nat)
    requires EndsMatch(f, b) && EndsMatch(g, b + |f|)
    ensures EndsMatch(f + g, b)
  {
    var h := f + g;
    forall i: nat | Opens(h, i)
      ensures h[i].end.To? && b + i < h[i].end.index < b + |h|
      ensures var e := h[h[i].end.index - b]; e.kind == (if h[i].kind == Object then ObjectEnd else ArrayEnd) && e.parent == To(b + i)
    {
      if i < |f| {
        assert Opens(f, i) && h[i] == f[i];
      } else {
        assert Opens(g, i - |f|) && h[i] == g[i - |f|];
      }
    }
  }

  lemma {:induction false} ConcatLinks<S>(f: seq<Token<S>>, g: seq<Token<S>>, b: nat, outer: Link)
    requires EndsMatch(f, b) && EndsMatch(g, b + |f|) && EndsMatch(f + g, b)
    requires ParentsEnclose(f, b, outer) && ParentsEnclose(g, b + |f|, outer)
    ensures ParentsEnclose(f + g, b, outer)
  {
    var h := f + g;
    forall i: nat | i < |h| ensures ParentEncloses(h, b, outer, i) {
      if i < |f| {
        var t := f[i];
        assert h[i] == t && ParentEncloses(f, b, outer, i);
        assert t.parent != outer ==> h[t.parent.index - b] == f[t.parent.index - b];
      } else {
        var t := g[i - |f|];
        assert h[i] == t && ParentEncloses(g, b + |f|, outer, i - |f|);
        assert t.parent != outer ==> h[t.parent.index - b] == g[t.parent.index - (b + |f|)];
      }
    }
  }

  lemma {:induction false} ConcatRanges<S>(f: seq<Token<S>>, g: seq<Token<S>>, b: nat)
    requires EndsMatch(f, b) && EndsMatch(g, b + |f|) && EndsMatch(f + g, b)
    requires RangesNest(f, b) && RangesNest(g, b + |f|)
    ensures RangesNest(f + g, b)
  {
    var h := f + g;
    forall i: nat, j: nat | i < j && Opens(h, i) && Opens(h, j)
      ensures h[i].end.index < b + j || h[j].end.index < h[i].end.index
    {
      if j < |f| {
        assert Opens(f, i) && Opens(f, j) && h[i] == f[i] && h[j] == f[j];
      } else if i >= |f| {
        assert Opens(g, i - |f|) && Opens(g, j - |f|) && h[i] == g[i - |f|] && h[j] == g[j - |f|];
      } else {
        assert Opens(f, i) && h[i] == f[i];
      }
    }
  }

  lemma {:induction false} ConcatInnermost<S>(f: seq<Token<S>>, g: seq<Token<S>>, b: nat)
    requires EndsMatch(f, b) && EndsMatch(g, b + |f|) && EndsMatch(f + g, b)
    requires ParentsInnermost(f, b) && ParentsInnermost(g, b + |f|)
    ensures ParentsInnermost(f + g, b)
  {
    var h := f + g;
    forall i: nat, q: nat | q < i < |h| && Opens(h, q) && b + i <= h[q].end.index
      ensures h[i].parent.To? && b + q <= h[i].parent.index
    {
      if q >= |f| {
        assert Opens(g, q - |f|) && h[q] == g[q - |f|] && h[i] == g[i - |f|];
      } else {
        assert Opens(f, q) && h[q] == f[q] && h[i] == f[i];
      }
    }
  }

  lemma {:induction false} ConcatCounters<S>(f: seq<Token<S>>, g: seq<Token<S>>, b: nat, outer: Link)
    requires EndsMatch(f, b) && EndsMatch(g, b + |f|) && (outer.To? ==> outer.index < b)
    requires ParentsEnclose(f, b, outer) && ParentsEnclose(g, b + |f|, outer)
    requires CountersExact(f, b) && CountersExact(g, b + |f|)
    ensures CountersExact(f + g, b)
  {
    hide EndsMatch, ParentsEnclose, CountParent;
    var h := f + g;
    forall i: nat | Opens(h, i) ensures h[i].childs == CountParent(h, b + i) {
      CountAppend(f, g, b + i);
      if i < |f| {
        assert Opens(f, i) && h[i] == f[i];
        ParentsElsewhere(g, b + |f|, outer, b + i);
      } else {
        assert Opens(g, i - |f|) && h[i] == g[i - |f|];
        ParentsElsewhere(f, b, outer, b + i);
      }
    }
  }

  lemma {:induction false} ConcatStructured<S>(f: seq<Token<S>>, g: seq<Token<S>>, b: nat, outer: Link)
    requires Structured(f, b, outer) && Structured(g, b + |f|, outer) && (outer.To? ==> outer.index < b)
    ensures Structured(f + g, b, outer)
  {
    hide EndsMatch, RangesNest, ParentsEnclose, ParentsInnermost, CountersExact;
    ConcatEnds(f, g, b);
    ConcatLinks(f, g, b, outer);
    ConcatRanges(f, g, b);
    ConcatInnermost(f, g, b);
    ConcatCounters(f, g, b, outer);
  }

  // ---- a container around its members ----

  lemma {:induction false} WrapEnds<S>(open: Token<S>, m: seq<Token<S>>, close: Token<S>, b: nat)
    requires EndsMatch(m, b + 1)
    requires OpensContainer(open.kind) && open.end == To(b + 1 + |m|)
    requires close.kind == (if open.kind == Object then ObjectEnd else ArrayEnd) && close.parent == To(b)
    ensures EndsMatch([open] + m + [close], b)
  {
    var h := [open] + m + [close];
    forall i: nat | Opens(h, i)
      ensures h[i].end.To? && b + i < h[i].end.index < b + |h|
      ensures var e := h[h[i].end.index - b]; e.kind == (if h[i].kind == Object then ObjectEnd else ArrayEnd) && e.parent == To(b + i)
    {
      if 0 < i < |m| + 1 {
        assert Opens(m, i - 1) && h[i] == m[i - 1];
      }
    }
  }

  /** The rest of the structure, once a container has been put around its members. */
  lemma {:induction false} WrapLinks<S>(open: Token<S>, m: seq<Token<S>>, close: Token<S>, b: nat, outer: Link)
    requires EndsMatch(m, b + 1) && EndsMatch([open] + m + [close], b)
    requires ParentsEnclose(m, b + 1, To(b)) && ParentsInnermost(m, b + 1) && RangesNest(m, b + 1)
    requires OpensContainer(open.kind) && open.parent == outer && open.end == To(b + 1 + |m|)
    requires !OpensContainer(close.kind) && close.parent == To(b)
    ensures ParentsEnclose([open] + m + [close], b, outer)
    ensures ParentsInnermost([open] + m + [close], b)
    ensures RangesNest([open] + m + [close], b)
  {
    var h := [open] + m + [close];
    assert h[0] == open && h[|m| + 1] == close;
    assert forall i: nat {:trigger h[i]} :: 0 < i <= |m| ==> h[i] == m[i - 1];
    assert forall i: nat {:trigger Opens(h, i)} :: 0 < i && Opens(h, i) ==> i <= |m| && Opens(m, i - 1);
    WrapParents(h, m, b, outer);
    WrapInnermost(h, m, b);
    WrapRanges(h, m, b);
  }

  /** `h` is `m` with one token in front and one behind; the first one opens and ends at the last one. */
  ghost predicate Wraps<S>(h: seq<Token<S>>, m: seq<Token<S>>, b: nat) {
    && |h| == |m| + 2
    && (forall i: nat {:trigger h[i]} :: 0 < i <= |m| ==> h[i] == m[i - 1])
    && (forall i: nat {:trigger Opens(h, i)} :: 0 < i && Opens(h, i) ==> i <= |m| && Opens(m, i - 1))
    && EndsMatch(m, b + 1) && EndsMatch(h, b)
    && Opens(h, 0) && h[0].end == To(b + 1 + |m|) && h[|m| + 1].parent == To(b)
  }

  lemma {:induction false} WrapParents<S>(h: seq<Token<S>>, m: seq<Token<S>>, b: nat, outer: Link)
    requires Wraps(h, m, b) && ParentsEnclose(m, b + 1, To(b)) && h[0].parent == outer
    ensures ParentsEnclose(h, b, outer)
  {
    forall i: nat | i < |h| ensures ParentEncloses(h, b, outer, i) {
      if 0 < i <= |m| {
        var t := m[i - 1];
        assert h[i] == t && ParentEncloses(m, b + 1, To(b), i - 1);
        if t.parent != To(b) {
          var p := t.parent.index - (b + 1);
          assert Opens(m, p) && h[p + 1] == m[p];
        }
      }
    }
  }

  lemma {:induction false} WrapInnermost<S>(h: seq<Token<S>>, m: seq<Token<S>>, b: nat)
    requires Wraps(h, m, b) && ParentsEnclose(m, b + 1, To(b)) && ParentsInnermost(m, b + 1)
    ensures ParentsInnermost(h, b)
  {
    forall i: nat, q: nat | q < i < |h| && Opens(h, q) && b + i <= h[q].end.index
      ensures h[i].parent.To? && b + q <= h[i].parent.index
    {
      if 0 < q {
        assert Opens(m, q - 1) && h[q] == m[q - 1];
        assert h[i] == m[i - 1];
      } else if i <= |m| {
        var t := m[i - 1];
        assert h[i] == t && ParentEncloses(m, b + 1, To(b), i - 1);
      }
    }
  }

  lemma {:induction false} WrapRanges<S>(h: seq<Token<S>>, m: seq<Token<S>>, b: nat)
    requires Wraps(h, m, b) && RangesNest(m, b + 1)
    ensures RangesNest(h, b)
  {
    forall i: nat, j: nat | i < j && Opens(h, i) && Opens(h, j)
      ensures h[i].end.index < b + j || h[j].end.index < h[i].end.index
    {
      assert Opens(m, j - 1) && h[j] == m[j - 1];
      if 0 < i {
        assert Opens(m, i - 1) && h[i] == m[i - 1];
      }
    }
  }

  lemma {:induction false} WrapCounters<S>(open: Token<S>, m: seq<Token<S>>, close: Token<S>, b: nat, outer: Link)
    requires EndsMatch(m, b + 1) && ParentsEnclose(m, b + 1, To(b)) && CountersExact(m, b + 1)
    requires open.parent == outer && (outer.To? ==> outer.index < b) && close.parent == To(b)
    requires !OpensContainer(close.kind) && open.childs == CountParent(m, b) + 1
    ensures CountersExact([open] + m + [close], b)
  {
    hide EndsMatch, ParentsEnclose;
    var h := [open] + m + [close];
    forall i: nat | Opens(h, i) ensures h[i].childs == CountParent(h, b + i) {
      CountAppend([open] + m, [close], b + i);
      CountAppend([open], m, b + i);
      CountOne(open, b + i);
      CountOne(close, b + i);
      if 0 < i {
        assert Opens(m, i - 1) && h[i] == m[i - 1];
      }
    }
  }

  lemma {:induction false} CountOne<S>(t: Token<S>, p: nat)
    ensures CountParent([t], p) == if t.parent == To(p) then 1 else 0
  {
    assert CountParent<S>([], p) == 0;
  }

  // ---- layouts ----

  lemma {:induction false} FlattenStructured<S>(t: Json<S>, key: Option<S>, b: nat, outer: Link)
    requires WellKeyed(t) && (outer.To? ==> outer.index < b)
    ensures Structured(Flatten(t, key, b, outer), b, outer)
    ensures outer.To? ==> CountParent(Flatten(t, key, b, outer), outer.index) == 1
    decreases t, 1
  {
    if t.Leaf? {
      CountOne(Flatten(t, key, b, outer)[0], if outer.To? then outer.index else 0);
    } else {
      NodeStructured(t, key, b, outer);
    }
  }

  lemma {:induction false} NodeStructured<S>(t: Json<S>, key: Option<S>, b: nat, outer: Link)
    requires t.Node? && WellKeyed(t) && (outer.To? ==> outer.index < b)
    ensures Structured(Flatten(t, key, b, outer), b, outer)
    ensures outer.To? ==> CountParent(Flatten(t, key, b, outer), outer.index) == 1
    decreases t, 0
  {
    hide EndsMatch, RangesNest, ParentsEnclose, ParentsInnermost, CountersExact, FlattenAll, CountParent;
    var m := FlattenAll(t.members, b + 1, b);
    var f := Flatten(t, key, b, outer);
    var open, close := f[0], f[|m| + 1];
    assert f == [open] + m + [close];
    FlattenAllStructured(t.members, t.keyed, b + 1, b);
    WrapEnds(open, m, close, b);
    WrapLinks(open, m, close, b, outer);
    WrapCounters(open, m, close, b, outer);
    if outer.To? {
      CountAppend([open] + m, [close], outer.index);
      CountAppend([open], m, outer.index);
      CountOne(open, outer.index);
      CountOne(close, outer.index);
      ParentsElsewhere(m, b + 1, To(b), outer.index);
    }
  }

  lemma {:induction false} EmptyStructured<S>(b: nat, parent: nat)
    ensures Structured<S>([], b, To(parent)) && CountParent<S>([], parent) == 0
  {
  }

  lemma {:induction false} FlattenAllStructured<S>(ms: Members<S>, keyed: bool, b: nat, parent: nat)
    requires WellKeyedAll(ms, keyed) && parent < b
    ensures Structured(FlattenAll(ms, b, parent), b, To(parent))
    ensures CountParent(FlattenAll(ms, b, parent), parent) == Len(ms)
    decreases ms, 2
  {
    hide EndsMatch, RangesNest, ParentsEnclose, ParentsInnermost, CountersExact, CountParent, Flatten;
    if ms.Nil? {
      EmptyStructured<S>(b, parent);
    } else {
      var f, g := Flatten(ms.head, ms.key, b, To(parent)), FlattenAll(ms.tail, b + Size(ms.head), parent);
      FlattenStructured(ms.head, ms.key, b, To(parent));
      FlattenAllStructured(ms.tail, keyed, b + Size(ms.head), parent);
      ConcatStructured(f, g, b, To(parent));
      CountAppend(f, g, parent);
    }
  }

  // ---- the narrow fields ----

  /** The lengths and the counter of a token are below the limits of its fields; a key of 255 bytes and a value of
      2^32-1 would still fit, but are refused. */
  predicate Narrow(k: Token<Span>) {
    (k.key.Some? ==> k.key.value.len < 255) && (k.val.Some? ==> k.val.value.len < 4_294_967_295) && k.childs < 65_536
  }

  predicate AllNarrow(f: seq<Token<Span>>) { forall i :: 0 <= i < |f| ==> Narrow(f[i]) }

  lemma {:induction false} NarrowAppend(a: seq<Token<Span>>, b: seq<Token<Span>>)
    ensures AllNarrow(a + b) <==> AllNarrow(a) && AllNarrow(b)
  {
    if AllNarrow(a + b) {
      forall i | 0 <= i < |a| ensures Narrow(a[i]) { assert (a + b)[i] == a[i]; }
      forall i | 0 <= i < |b| ensures Narrow(b[i]) { assert (a + b)[|a| + i] == b[i]; }
    }
  }

  lemma {:induction false} NarrowFlatten(t: Json<Span>, key: Option<Span>, b: nat, parent: Link)
    ensures AllNarrow(Flatten(t, key, b, parent)) <==>
      Fits(t) && (key.Some? ==> key.value.len < 255) && (t.Leaf? ==> t.value.len < 4_294_967_295)
    decreases t
  {
    hide FlattenAll;
    var f := Flatten(t, key, b, parent);
    if t.Node? {
      var body := FlattenAll(t.members, b + 1, b);
      NarrowAppend([f[0]] + body, [f[|f| - 1]]);
      NarrowAppend([f[0]], body);
      NarrowOne(f[0]);
      NarrowOne(f[|f| - 1]);
      NarrowFlattenAll(t.members, b + 1, b);
    } else {
      NarrowOne(f[0]);
    }
  }

  lemma {:induction false} NarrowOne(k: Token<Span>)
    ensures AllNarrow([k]) <==> Narrow(k)
  {
    assert [k][0] == k;
  }

  lemma {:induction false} NarrowFlattenAll(ms: Members<Span>, b: nat, parent: nat)
    ensures AllNarrow(FlattenAll(ms, b, parent)) <==> KeysFitAll(ms) && ValuesFitAll(ms) && ChildsFitAll(ms)
    decreases ms
  {
    hide Flatten;
    if ms.Cons? {
      NarrowFlatten(ms.head, ms.key, b, To(parent));
      NarrowFlattenAll(ms.tail, b + Size(ms.head), parent);
      NarrowAppend(Flatten(ms.head, ms.key, b, To(parent)), FlattenAll(ms.tail, b + Size(ms.head), parent));
    }
  }

  /** A container fits exactly if all its tokens do. */
  lemma {:induction false} FitsIff(t: Json<Span>)
    requires t.Node?
    ensures Fits(t) <==> AllNarrow(Flatten(t, None, 0, Nowhere))
  {
    NarrowFlatten(t, None, 0, Nowhere);
  }
}
