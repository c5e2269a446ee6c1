/** One tick of the instrument selector, as functions of the selector's state. */
module SelectorModel {
  import opened Options

  type Symbol = string

  /** selector_config; scores and weights are reals, times nanoseconds. */
  datatype Config = Config(
    wVolume: real, wTrades: real, wNatr: real,
    addScore: real, removeScore: real, minHoldSeconds: nat, cooloffSeconds: nat,
    minActive: nat, maxActive: nat, mandatory: seq<Symbol>)

  /** What the selector reads of a symbol's rolling aggregates. */
  datatype Agg = Agg(
    vol1m: real, vol5m: real, vol1h: real, trades1m: real, trades5m: real, trades1h: real,
    natr: real, eventsTotal: nat)

  datatype SymbolState = SymbolState(active: bool, lastScore: real, admittedAt: int, belowSince: Option<int>)

  const BLANK := SymbolState(false, 0.0, 0, None)

  datatype Reason = BelowRemoveScore | AboveAddScore | MinActiveFloor

  /** selector_event without its wall-clock stamp. */
  datatype Event = Add(symbol: Symbol, score: real, reason: Reason) | Remove(symbol: Symbol, score: real, reason: Reason)

  /** `state_` and `active_`. */
  datatype Sel = Sel(state: map<Symbol, SymbolState>, active: set<Symbol>)

  datatype Scored = Scored(symbol: Symbol, score: real)

  /** `state_[sym]`, which inserts a blank entry for a new symbol. */
  function Entry(state: map<Symbol, SymbolState>, x: Symbol): SymbolState {
    if x in state then state[x] else BLANK
  }

  function Mandatory(cfg: Config): set<Symbol> { set x | x in cfg.mandatory }

  function Initial(cfg: Config): Sel {
    Sel(map x | x in Mandatory(cfg) :: BLANK.(active := true), Mandatory(cfg))
  }

  function Score(cfg: Config, a: Agg): real {
    cfg.wVolume * (a.vol1m + a.vol5m + a.vol1h) + cfg.wTrades * (a.trades1m + a.trades5m + a.trades1h)
    + cfg.wNatr * a.natr + cfg.wVolume * a.eventsTotal as real
  }

  // ---- 1. scoring ----

  function Rescore(cfg: Config, state: map<Symbol, SymbolState>, aggs: map<Symbol, Agg>): map<Symbol, SymbolState> {
    map x | x in state.Keys + aggs.Keys ::
      if x in aggs then Entry(state, x).(lastScore := Score(cfg, aggs[x])) else state[x]
  }

  predicate Sorted(list: seq<Scored>) {
    forall i, j :: 0 <= i < j < |list| ==> list[i].score >= list[j].score
  }

  /** The scored list: every symbol with its score, best first, ties in any order. */
  ghost predicate Ranking(cfg: Config, list: seq<Scored>, aggs: map<Symbol, Agg>) {
    && Sorted(list)
    && (forall e :: e in list ==> e.symbol in aggs && e.score == Score(cfg, aggs[e.symbol]))
    && (forall x :: x in aggs ==> Scored(x, Score(cfg, aggs[x])) in list)
  }

  // ---- 2. eviction ----

  const NANOS: int := 1_000_000_000

  /** duration_cast to whole seconds, towards zero, read as an unsigned 64-bit number. */
  function WholeSeconds(d: int): nat {
    (if d >= 0 then d / NANOS else 0 - ((0 - d) / NANOS)) % 0x1_0000_0000_0000_0000
  }

  /** What eviction does to the entry of an active symbol that is not mandatory, and whether it is evicted. */
  function Judge(cfg: Config, st: SymbolState, now: int): (SymbolState, bool) {
    if WholeSeconds(now - st.admittedAt) < cfg.minHoldSeconds then (st, false)
    else if st.lastScore >= cfg.removeScore then (st.(belowSince := None), false)
    else
      var since := if st.belowSince.Some? then st.belowSince.value else now;
      (st.(belowSince := Some(since)), WholeSeconds(now - since) >= cfg.cooloffSeconds)
  }

  function Judged(cfg: Config, state: map<Symbol, SymbolState>, who: set<Symbol>, now: int): map<Symbol, SymbolState> {
    map x | x in state :: if x in who && x !in Mandatory(cfg) then Judge(cfg, state[x], now).0 else state[x]
  }

  function Evicted(cfg: Config, state: map<Symbol, SymbolState>, who: set<Symbol>, now: int): set<Symbol> {
    set x | x in who && x in state && x !in Mandatory(cfg) && Judge(cfg, state[x], now).1
  }

  function Deactivate(state: map<Symbol, SymbolState>, who: set<Symbol>): map<Symbol, SymbolState> {
    map x | x in state :: if x in who then state[x].(active := false, belowSince := None) else state[x]
  }

  function Evict(cfg: Config, s: Sel, now: int): Sel {
    var gone := Evicted(cfg, s.state, s.active, now);
    Sel(Deactivate(Judged(cfg, s.state, s.active, now), gone), s.active - gone)
  }

  // ---- 3. and 4. admission and the floor ----

  function Admit(s: Sel, x: Symbol, now: int): Sel {
    Sel(s.state[x := Entry(s.state, x).(active := true, admittedAt := now, belowSince := None)], s.active + {x})
  }

  /** Both admission loops: add the best inactive symbols until `cap` are active, stopping at scores below `floor`. */
  function Walk(s: Sel, list: seq<Scored>, now: int, cap: nat, floor: Option<real>, why: Reason): (Sel, seq<Event>)
    decreases |list|
  {
    if list == [] || |s.active| >= cap then (s, [])
    else if list[0].symbol in s.active then Walk(s, list[1..], now, cap, floor, why)
    else if floor.Some? && list[0].score < floor.value then (s, [])
    else
      var (t, events) := Walk(Admit(s, list[0].symbol, now), list[1..], now, cap, floor, why);
      (t, [Add(list[0].symbol, list[0].score, why)] + events)
  }

  /** The state after scoring and eviction. */
  function Swept(cfg: Config, s: Sel, aggs: map<Symbol, Agg>, now: int): Sel {
    Evict(cfg, s.(state := Rescore(cfg, s.state, aggs)), now)
  }

  function TickState(cfg: Config, s: Sel, aggs: map<Symbol, Agg>, now: int, list: seq<Scored>): (Sel, seq<Event>) {
    var (admitted, adds) := Walk(Swept(cfg, s, aggs, now), list, now, cfg.maxActive, Some(cfg.addScore), AboveAddScore);
    var (filled, more) := Walk(admitted, list, now, cfg.minActive, None, MinActiveFloor);
    (filled, adds + more)
  }

  /** The removals eviction reports for a scored state: one event for every evicted symbol, in any order. */
  ghost predicate RemovalsOf(cfg: Config, s: Sel, now: int, removes: seq<Event>) {
    var gone := Evicted(cfg, s.state, s.active, now);
    && (forall e :: e in removes ==> e.Remove? && e.symbol in gone && e.score == s.state[e.symbol].lastScore && e.reason == BelowRemoveScore)
    && (forall x :: x in gone ==> exists e :: e in removes && e.symbol == x) && |removes| == |gone|
  }

  ghost predicate Removals(cfg: Config, s: Sel, aggs: map<Symbol, Agg>, now: int, removes: seq<Event>) {
    RemovalsOf(cfg, s.(state := Rescore(cfg, s.state, aggs)), now, removes)
  }

  /** One tick, for some order among equal scores and among removals. */
  ghost predicate TickWith(cfg: Config, s: Sel, aggs: map<Symbol, Agg>, now: int, t: Sel, diffs: seq<Event>, list: seq<Scored>, removes: seq<Event>) {
    && Ranking(cfg, list, aggs) && Removals(cfg, s, aggs, now, removes)
    && t == TickState(cfg, s, aggs, now, list).0
    && diffs == removes + TickState(cfg, s, aggs, now, list).1
  }

  ghost predicate Tick(cfg: Config, s: Sel, aggs: map<Symbol, Agg>, now: int, t: Sel, diffs: seq<Event>) {
    exists list, removes :: TickWith(cfg, s, aggs, now, t, diffs, list, removes)
  }

  // ---- what the admission loops do ----

  /** The active set is the set of symbols flagged active. */
  ghost predicate FlagsMatch(s: Sel) {
    forall x :: x in s.active <==> x in s.state && s.state[x].active
  }

  function Replay(active: set<Symbol>, events: seq<Event>): set<Symbol>
    decreases |events|
  {
    if events == [] then active
    else Replay(if events[0].Add? then active + {events[0].symbol} else active - {events[0].symbol}, events[1..])
  }

  /** `x` was admitted just now. */
  ghost predicate JustAdmitted(s: Sel, x: Symbol, now: int) {
    x in s.state && s.state[x].active && s.state[x].admittedAt == now && s.state[x].belowSince.None?
  }

  ghost predicate HasAdd(events: seq<Event>, x: Symbol) { exists e :: e in events && e.Add? && e.symbol == x }

  lemma {:induction false} WalkSet(s: Sel, list: seq<Scored>, now: int, cap: nat, floor: Option<real>, why: Reason)
    ensures var (t, events) := Walk(s, list, now, cap, floor, why);
      && s.active <= t.active && Replay(s.active, events) == t.active
      && (|t.active| <= |s.active| || |t.active| <= cap)
      && (FlagsMatch(s) ==> FlagsMatch(t))
      && (forall e :: e in events ==>
            e.Add? && e.reason == why && e.symbol !in s.active && e.symbol in t.active && Scored(e.symbol, e.score) in list)
      && (floor.None? ==> |t.active| >= cap || forall e :: e in list ==> e.symbol in t.active)
    decreases |list|
  {
    if list != [] && |s.active| < cap {
      if list[0].symbol in s.active {
        WalkSet(s, list[1..], now, cap, floor, why);
      } else if !(floor.Some? && list[0].score < floor.value) {
        WalkSet(Admit(s, list[0].symbol, now), list[1..], now, cap, floor, why);
      }
    }
  }

  /** Entries of symbols that stay as they were are untouched; the others are admitted now and reported. */
  lemma {:induction false} WalkEntry(s: Sel, list: seq<Scored>, now: int, cap: nat, floor: Option<real>, why: Reason, x: Symbol)
    ensures var (t, events) := Walk(s, list, now, cap, floor, why);
      if x in t.active && x !in s.active then
        JustAdmitted(t, x, now) && HasAdd(events, x) && t.state[x].lastScore == Entry(s.state, x).lastScore
      else (x in t.state <==> x in s.state) && (x in s.state ==> t.state[x] == s.state[x])
    decreases |list|
  {
    WalkSet(s, list, now, cap, floor, why);
    if list != [] && |s.active| < cap {
      if list[0].symbol in s.active {
        WalkEntry(s, list[1..], now, cap, floor, why, x);
      } else if !(floor.Some? && list[0].score < floor.value) {
        var s', rest := Admit(s, list[0].symbol, now), list[1..];
        WalkEntry(s', rest, now, cap, floor, why, x);
        WalkSet(s', rest, now, cap, floor, why);
        if x == list[0].symbol {
          assert Add(x, list[0].score, why) in Walk(s, list, now, cap, floor, why).1;
        }
      }
    }
  }

  /** Nobody left out scores above anybody added. */
  lemma {:induction false} WalkBest(s: Sel, list: seq<Scored>, now: int, cap: nat, floor: Option<real>, why: Reason)
    requires Sorted(list)
    ensures var (t, events) := Walk(s, list, now, cap, floor, why);
      forall e, y :: e in events && y in list && y.symbol !in t.active ==> y.score <= e.score
    decreases |list|
  {
    hide Admit, FlagsMatch, Replay;
    if list != [] && |s.active| < cap {
      WalkSet(s, list, now, cap, floor, why);
      assert forall y :: y in list ==> y == list[0] || y in list[1..];
      assert forall y :: y in list ==> y.score <= list[0].score;
      if list[0].symbol in s.active {
        WalkBest(s, list[1..], now, cap, floor, why);
      } else if !(floor.Some? && list[0].score < floor.value) {
        WalkSet(Admit(s, list[0].symbol, now), list[1..], now, cap, floor, why);
        WalkBest(Admit(s, list[0].symbol, now), list[1..], now, cap, floor, why);
      }
    }
  }

  /** With a score floor everybody at or above it is taken while there is room, and nobody below it. */
  lemma {:induction false} WalkFloor(s: Sel, list: seq<Scored>, now: int, cap: nat, floor: real, why: Reason)
    requires Sorted(list)
    ensures var (t, events) := Walk(s, list, now, cap, Some(floor), why);
      && (forall e :: e in events ==> e.score >= floor)
      && (|t.active| >= cap || forall y :: y in list && y.score >= floor ==> y.symbol in t.active)
    decreases |list|
  {
    hide Admit;
    if list != [] && |s.active| < cap {
      assert forall y :: y in list ==> y == list[0] || y in list[1..];
      if list[0].symbol in s.active {
        WalkFloor(s, list[1..], now, cap, floor, why);
        WalkSet(s, list[1..], now, cap, Some(floor), why);
      } else if list[0].score >= floor {
        var s' := Admit(s, list[0].symbol, now);
        WalkFloor(s', list[1..], now, cap, floor, why);
        WalkSet(s', list[1..], now, cap, Some(floor), why);
        assert list[0].symbol in s'.active by { Admitted(s, list[0].symbol, now); }
      } else {
        assert forall y :: y in list ==> y.score <= list[0].score;
      }
    }
  }

  lemma {:induction false} Admitted(s: Sel, x: Symbol, now: int)
    ensures x in Admit(s, x, now).active
  {
  }

  /** What a score is made of: each input counts with its weight, and an empty aggregate scores nothing. */
  lemma {:induction false} ScoreResponds(cfg: Config, a: Agg, d: real, n: nat)
    ensures Score(cfg, Agg(0.0, 0.0, 0.0, 0.0, 0.0, 0.0, 0.0, 0)) == 0.0
    ensures Score(cfg, a.(vol1m := a.vol1m + d)) == Score(cfg, a.(vol5m := a.vol5m + d)) == Score(cfg, a.(vol1h := a.vol1h + d))
         == Score(cfg, a) + cfg.wVolume * d
    ensures Score(cfg, a.(trades1m := a.trades1m + d)) == Score(cfg, a.(trades5m := a.trades5m + d)) == Score(cfg, a.(trades1h := a.trades1h + d))
         == Score(cfg, a) + cfg.wTrades * d
    ensures Score(cfg, a.(natr := a.natr + d)) == Score(cfg, a) + cfg.wNatr * d
    ensures Score(cfg, a.(eventsTotal := a.eventsTotal + n)) == Score(cfg, a) + cfg.wVolume * n as real
  {
    var v, t := a.vol1m + a.vol5m + a.vol1h, a.trades1m + a.trades5m + a.trades1h;
    Spread(cfg.wVolume, v, d);
    Spread(cfg.wTrades, t, d);
    Spread(cfg.wNatr, a.natr, d);
    Spread(cfg.wVolume, a.eventsTotal as real, n as real);
  }

  lemma {:induction false} Spread(w: real, x: real, d: real)
    ensures w * (x + d) == w * x + w * d
  {
  }
}
