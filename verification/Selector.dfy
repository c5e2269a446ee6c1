/** The selector object: its constructor and `tick`, loop by loop. */
module Selector {
  import opened Options
  import opened SelectorModel
  import SelectorRuns

  /** Inserting into a list that is sorted best first. */
  function Insert(x: Scored, list: seq<Scored>): seq<Scored> {
    if list == [] || x.score > list[0].score then [x] + list else [list[0]] + Insert(x, list[1..])
  }

  lemma {:induction false} InsertSorted(x: Scored, list: seq<Scored>)
    requires Sorted(list)
    ensures Sorted(Insert(x, list)) && multiset(Insert(x, list)) == multiset(list) + multiset{x}
  {
    hide Sorted;
    if list == [] || x.score > list[0].score {
      SortedFront(x, list);
    } else {
      SortedBehind(list);
      InsertSorted(x, list[1..]);
      var r := Insert(x, list[1..]);
      assert list == [list[0]] + list[1..];
      forall i | 0 <= i < |r| ensures r[i].score <= list[0].score {
        assert r[i] in multiset(r);
      }
      SortedFront(list[0], r);
    }
  }

  lemma {:induction false} SortedFront(x: Scored, list: seq<Scored>)
    requires Sorted(list) && (list == [] || x.score >= list[0].score)
    ensures Sorted([x] + list)
  {
  }

  lemma {:induction false} SortedBehind(list: seq<Scored>)
    requires Sorted(list) && list != []
    ensures Sorted(list[1..]) && forall e :: e in multiset(list[1..]) ==> e.score <= list[0].score
  {
    forall e | e in multiset(list[1..]) ensures e.score <= list[0].score {
      assert e in list[1..];
    }
  }

  /** std::sort by descending score. */
  method SortByScore(list: seq<Scored>) returns (r: seq<Scored>)
    ensures Sorted(r) && multiset(r) == multiset(list)
    ensures forall e :: e in r <==> e in list
  {
    r := [];
    for i := 0 to |list|
      invariant Sorted(r) && multiset(r) == multiset(list[..i])
    {
      InsertSorted(list[i], r);
      r := Insert(list[i], r);
      assert list[..i + 1] == list[..i] + [list[i]];
    }
    assert list[..|list|] == list;
    assert forall e :: (e in r <==> e in multiset(r)) && (e in list <==> e in multiset(list));
  }

  function ToSet(s: seq<Symbol>): set<Symbol> { set x | x in s }

  /** Judging one more symbol. */
  lemma {:induction false} JudgeOneMore(cfg: Config, state: map<Symbol, SymbolState>, before: set<Symbol>, x: Symbol, now: int)
    requires x in state && x !in before
    ensures var (st, evict) := Judge(cfg, state[x], now);
      var judged := Judged(cfg, state, before, now);
      && x in judged && judged[x] == state[x]
      && Judged(cfg, state, before + {x}, now) == (if x in cfg.mandatory then judged else judged[x := st])
      && Evicted(cfg, state, before + {x}, now) == Evicted(cfg, state, before, now) + (if x in cfg.mandatory || !evict then {} else {x})
      && x !in Evicted(cfg, state, before, now)
  {
    hide Judge;
  }

  class SelectorObject {
    const cfg: Config
    var state: map<Symbol, SymbolState>
    var active: set<Symbol>

    ghost function Snapshot(): Sel
      reads this
    {
      Sel(state, active)
    }

    /** Mandatory symbols are admitted beforehand. */
    constructor (cfg: Config)
      ensures this.cfg == cfg && Snapshot() == Initial(cfg)
    {
      this.cfg := cfg;
      state, active := map[], {};
      new;
      for i := 0 to |cfg.mandatory|
        invariant this.cfg == cfg
        invariant active == set x | x in cfg.mandatory[..i]
        invariant state == map x | x in active :: BLANK.(active := true)
      {
        var x := cfg.mandatory[i];
        state := state[x := Entry(state, x).(active := true)];
        active := active + {x};
      }
      assert cfg.mandatory[..|cfg.mandatory|] == cfg.mandatory;
    }

    /** Phase 1: score every known symbol and record the score. */
    method ScoreAll(aggs: map<Symbol, Agg>) returns (list: seq<Scored>)
      modifies this`state
      ensures state == Rescore(cfg, old(state), aggs) && Ranking(cfg, list, aggs)
    {
      hide Rescore, Score, Restricted, Entry;
      list := [];
      var rest := aggs.Keys;
      ghost var done := {};
      RestrictedEnds(cfg, state, aggs);
      while rest != {}
        invariant done + rest == aggs.Keys && done !! rest
        invariant state == Rescore(cfg, old(state), Restricted(aggs, done))
        invariant forall e :: e in list <==> e.symbol in done && e.score == Score(cfg, aggs[e.symbol])
        decreases rest
      {
        var x :| x in rest;
        RescoreOneMore(cfg, old(state), aggs, done, x);
        list := list + [Scored(x, Score(cfg, aggs[x]))];
        state := state[x := Entry(state, x).(lastScore := Score(cfg, aggs[x]))];
        rest, done := rest - {x}, done + {x};
      }
      assert done == aggs.Keys;
      list := SortByScore(list);
    }

    /** Phase 2, first loop: judge every active symbol and collect those to evict. */
    method JudgeAll(now: int) returns (toEvict: seq<Symbol>)
      requires FlagsMatch(Snapshot())
      modifies this`state
      ensures state == Judged(cfg, old(state), active, now)
      ensures forall x :: x in toEvict <==> x in Evicted(cfg, old(state), active, now)
      ensures |toEvict| == |Evicted(cfg, old(state), active, now)|
    {
      toEvict := [];
      var rest := active;
      JudgeNobody(now);
      hide Judge, Judged, Evicted;
      while rest != {}
        invariant rest <= active
        invariant state == Judged(cfg, old(state), active - rest, now)
        invariant forall x :: x in toEvict <==> x in Evicted(cfg, old(state), active - rest, now)
        invariant |toEvict| == |Evicted(cfg, old(state), active - rest, now)|
        decreases rest
      {
        var x :| x in rest;
        ghost var before := active - rest;
        JudgeOneMore(cfg, old(state), before, x, now);
        rest := rest - {x};
        assert active - rest == before + {x};
        if x !in cfg.mandatory {
          var (st, evict) := Judge(cfg, state[x], now);
          state := state[x := st];
          if evict { toEvict := toEvict + [x]; }
        }
      }
      assert active - rest == active;
    }

    lemma {:induction false} JudgeNobody(now: int)
      ensures Judged(cfg, state, active - active, now) == state && Evicted(cfg, state, active - active, now) == {}
    {
    }

    /** Phase 2, second loop: take the collected symbols out and report them. */
    method Remove(toEvict: seq<Symbol>) returns (events: seq<Event>)
      requires forall x :: x in toEvict ==> x in state
      modifies this
      ensures state == Deactivate(old(state), ToSet(toEvict)) && active == old(active) - ToSet(toEvict)
      ensures |events| == |toEvict|
      ensures forall i :: 0 <= i < |events| ==> events[i] == SelectorModel.Remove(toEvict[i], old(state)[toEvict[i]].lastScore, BelowRemoveScore)
    {
      events := [];
      for i := 0 to |toEvict|
        invariant state == Deactivate(old(state), ToSet(toEvict[..i]))
        invariant active == old(active) - ToSet(toEvict[..i])
        invariant |events| == i
        invariant forall k :: 0 <= k < i ==> events[k] == SelectorModel.Remove(toEvict[k], old(state)[toEvict[k]].lastScore, BelowRemoveScore)
      {
        var x := toEvict[i];
        active := active - {x};
        state := state[x := state[x].(active := false, belowSince := None)];
        events := events + [SelectorModel.Remove(x, state[x].lastScore, BelowRemoveScore)];
        assert ToSet(toEvict[..i + 1]) == ToSet(toEvict[..i]) + {x};
      }
      assert toEvict[..|toEvict|] == toEvict;
    }

    /** Phases 3 and 4: one admission loop. */
    method AdmitLoop(list: seq<Scored>, now: int, cap: nat, floor: Option<real>, why: Reason) returns (events: seq<Event>)
      modifies this
      ensures (Snapshot(), events) == Walk(old(Snapshot()), list, now, cap, floor, why)
    {
      hide Walk;
      events := [];
      ghost var goal := Walk(Snapshot(), list, now, cap, floor, why);
      assert list[0..] == list;
      for i := 0 to |list|
        invariant goal.0 == Walk(Snapshot(), list[i..], now, cap, floor, why).0
        invariant goal.1 == events + Walk(Snapshot(), list[i..], now, cap, floor, why).1
      {
        WalkAt(Snapshot(), list, i, now, cap, floor, why);
        assert events + [] == events;
        if |active| >= cap { return; }
        var s := list[i];
        if s.symbol in active { continue; }
        if floor.Some? && s.score < floor.value { return; }
        active := active + {s.symbol};
        state := state[s.symbol := Entry(state, s.symbol).(active := true, admittedAt := now, belowSince := None)];
        assert events + [Add(s.symbol, s.score, why)] + Walk(Snapshot(), list[i + 1..], now, cap, floor, why).1 == goal.1;
        events := events + [Add(s.symbol, s.score, why)];
      }
      WalkAt(Snapshot(), list, |list|, now, cap, floor, why);
      assert events + [] == events;
    }

    /** Phase 2. */
    method EvictPhase(now: int) returns (events: seq<Event>)
      requires FlagsMatch(Snapshot())
      modifies this
      ensures Snapshot() == Evict(cfg, old(Snapshot()), now)
      ensures RemovalsOf(cfg, old(Snapshot()), now, events)
    {
      var toEvict := JudgeAll(now);
      ghost var gone := Evicted(cfg, old(state), active, now);
      assert ToSet(toEvict) == gone;
      JudgeKeepsScores(cfg, old(state), active, now);
      hide Judge, Judged, Evicted;
      events := Remove(toEvict);
      forall x | x in gone ensures exists e :: e in events && e.symbol == x {
        var i :| 0 <= i < |toEvict| && toEvict[i] == x;
        assert events[i] in events;
      }
    }

    method Tick(aggs: map<Symbol, Agg>, now: int) returns (diffs: seq<Event>)
      requires SelectorRuns.Inv(cfg, Snapshot())
      modifies this
      ensures SelectorModel.Tick(cfg, old(Snapshot()), aggs, now, Snapshot(), diffs)
      ensures SelectorRuns.Inv(cfg, Snapshot())
    {
      ghost var start := Snapshot();
      SelectorRuns.RescoreFlags(cfg, start, aggs);
      hide Rescore, Evict, Walk, RemovalsOf, Ranking, FlagsMatch, SelectorModel.Tick;
      var list := ScoreAll(aggs);
      var removes := EvictPhase(now);
      ghost var swept := Snapshot();
      var adds := AdmitLoop(list, now, cfg.maxActive, Some(cfg.addScore), AboveAddScore);
      ghost var mid := Snapshot();
      var more := AdmitLoop(list, now, cfg.minActive, None, MinActiveFloor);
      diffs := removes + adds + more;
      TickParts(cfg, start, aggs, now, list, removes, swept, mid, adds, Snapshot(), more);
      SelectorRuns.TickKeeps(cfg, start, aggs, now, Snapshot(), diffs);
    }
  }

  /** The phases one after the other are a tick. */
  lemma {:induction false} TickParts(cfg: Config, s: Sel, aggs: map<Symbol, Agg>, now: int, list: seq<Scored>,
      removes: seq<Event>, swept: Sel, mid: Sel, adds: seq<Event>, last: Sel, more: seq<Event>)
    requires Ranking(cfg, list, aggs) && RemovalsOf(cfg, s.(state := Rescore(cfg, s.state, aggs)), now, removes)
    requires swept == Evict(cfg, s.(state := Rescore(cfg, s.state, aggs)), now)
    requires (mid, adds) == Walk(swept, list, now, cfg.maxActive, Some(cfg.addScore), AboveAddScore)
    requires (last, more) == Walk(mid, list, now, cfg.minActive, None, MinActiveFloor)
    ensures SelectorModel.Tick(cfg, s, aggs, now, last, removes + adds + more)
  {
    hide Rescore, Evict, Walk, RemovalsOf, Ranking;
    assert removes + adds + more == removes + (adds + more);
    assert TickWith(cfg, s, aggs, now, last, removes + adds + more, list, removes);
  }

  /** One round of the admission loop. */
  lemma {:induction false} WalkAt(s: Sel, list: seq<Scored>, i: nat, now: int, cap: nat, floor: Option<real>, why: Reason)
    requires i <= |list|
    ensures var here := Walk(s, list[i..], now, cap, floor, why);
      if i == |list| || |s.active| >= cap then here == (s, [])
      else if list[i].symbol in s.active then here == Walk(s, list[i + 1..], now, cap, floor, why)
      else if floor.Some? && list[i].score < floor.value then here == (s, [])
      else
        var rest := Walk(Admit(s, list[i].symbol, now), list[i + 1..], now, cap, floor, why);
        here.0 == rest.0 && here.1 == [Add(list[i].symbol, list[i].score, why)] + rest.1
  {
    hide Admit;
    if i < |list| { assert list[i..][0] == list[i] && list[i..][1..] == list[i + 1..]; }
  }

  /** Scoring one more symbol. */
  lemma {:induction false} RescoreOneMore(cfg: Config, state: map<Symbol, SymbolState>, aggs: map<Symbol, Agg>, before: set<Symbol>, x: Symbol)
    requires before <= aggs.Keys && x in aggs && x !in before
    ensures var done := Rescore(cfg, state, Restricted(aggs, before));
      Rescore(cfg, state, Restricted(aggs, before + {x})) == done[x := Entry(done, x).(lastScore := Score(cfg, aggs[x]))]
  {
    hide Score;
  }

  function Restricted(aggs: map<Symbol, Agg>, keys: set<Symbol>): map<Symbol, Agg> { map x | x in aggs.Keys * keys :: aggs[x] }

  lemma {:induction false} RestrictedEnds(cfg: Config, state: map<Symbol, SymbolState>, aggs: map<Symbol, Agg>)
    ensures Rescore(cfg, state, Restricted(aggs, {})) == state && Restricted(aggs, aggs.Keys) == aggs
  {
  }

  lemma {:induction false} JudgeKeepsScores(cfg: Config, state: map<Symbol, SymbolState>, who: set<Symbol>, now: int)
    ensures var judged := Judged(cfg, state, who, now);
      && judged.Keys == state.Keys
      && (forall x :: x in judged ==> judged[x].lastScore == state[x].lastScore)
      && Evicted(cfg, state, who, now) <= state.Keys
  {
  }
}
