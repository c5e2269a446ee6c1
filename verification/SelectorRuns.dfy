/** What holds across all ticks of a selector: its set invariants, and when a symbol can be evicted. */
module SelectorRuns {
  import opened Options
  import opened SelectorModel

  function Max(a: nat, b: nat): nat { if a < b then b else a }

  /** Upper bound of the active set. */
  function Bound(cfg: Config): nat { Max(Max(cfg.maxActive, cfg.minActive), |Mandatory(cfg)|) }

  ghost predicate Inv(cfg: Config, s: Sel) {
    FlagsMatch(s) && Mandatory(cfg) <= s.active && |s.active| <= Bound(cfg)
  }

  lemma {:induction false} InitialInv(cfg: Config)
    ensures Inv(cfg, Initial(cfg))
  {
  }

  // ---- one tick ----

  lemma {:induction false} SubsetSize<T>(a: set<T>, b: set<T>)
    requires a <= b
    ensures |a| <= |b|
  {
    assert b == a + (b - a);
  }

  /** Scoring and eviction. */
  lemma {:induction false} SweptInv(cfg: Config, s: Sel, aggs: map<Symbol, Agg>, now: int)
    requires Inv(cfg, s)
    ensures Inv(cfg, Swept(cfg, s, aggs, now))
    ensures Swept(cfg, s, aggs, now).active == s.active - Evicted(cfg, Rescore(cfg, s.state, aggs), s.active, now)
  {
    var r := s.(state := Rescore(cfg, s.state, aggs));
    RescoreFlags(cfg, s, aggs);
    JudgedFlags(cfg, r.state, r.active, now);
    DeactivatedFlags(r, Judged(cfg, r.state, r.active, now), Evicted(cfg, r.state, r.active, now));
    hide Rescore, Judge, Judged, Deactivate, FlagsMatch;
    SubsetSize(Swept(cfg, s, aggs, now).active, s.active);
  }

  /** Scoring leaves the flags alone. */
  lemma {:induction false} RescoreFlags(cfg: Config, s: Sel, aggs: map<Symbol, Agg>)
    requires FlagsMatch(s)
    ensures FlagsMatch(s.(state := Rescore(cfg, s.state, aggs)))
  {
    hide Score;
  }

  /** So does judging. */
  lemma {:induction false} JudgedFlags(cfg: Config, state: map<Symbol, SymbolState>, who: set<Symbol>, now: int)
    ensures var judged := Judged(cfg, state, who, now);
      judged.Keys == state.Keys && forall x :: x in judged ==> judged[x].active == state[x].active
  {
    hide WholeSeconds;
  }

  lemma {:induction false} DeactivatedFlags(s: Sel, judged: map<Symbol, SymbolState>, gone: set<Symbol>)
    requires FlagsMatch(s) && judged.Keys == s.state.Keys && forall x :: x in judged ==> judged[x].active == s.state[x].active
    ensures FlagsMatch(Sel(Deactivate(judged, gone), s.active - gone))
  {
  }

  lemma {:induction false} ReplayRemovals(active: set<Symbol>, removes: seq<Event>, gone: set<Symbol>)
    requires forall e :: e in removes ==> e.Remove? && e.symbol in gone
    ensures forall x :: x in Replay(active, removes) <==> x in active && !exists e :: e in removes && e.symbol == x
    decreases |removes|
  {
    if removes != [] {
      var rest := active - {removes[0].symbol};
      ReplayRemovals(rest, removes[1..], gone);
      assert forall e :: e in removes <==> e == removes[0] || e in removes[1..];
      forall x ensures x in Replay(active, removes) <==> x in active && !exists e :: e in removes && e.symbol == x {
        if exists e :: e in removes && e.symbol == x {
          var e: Event :| e in removes && e.symbol == x;
          if e in removes[1..] {}
        } else {
          assert removes[0] in removes;
        }
      }
    }
  }

  lemma {:induction false} ReplayAppend(active: set<Symbol>, a: seq<Event>, b: seq<Event>)
    ensures Replay(active, a + b) == Replay(Replay(active, a), b)
    decreases |a|
  {
    if a == [] {
      assert a + b == b;
    } else {
      assert (a + b)[1..] == a[1..] + b;
      ReplayAppend(if a[0].Add? then active + {a[0].symbol} else active - {a[0].symbol}, a[1..], b);
    }
  }

  /** Every tick keeps the invariant, fills up to the floor if it can, reports exactly the change of the set
      and prefers better scores. */
  lemma {:induction false} TickKeeps(cfg: Config, s: Sel, aggs: map<Symbol, Agg>, now: int, t: Sel, diffs: seq<Event>)
    requires Inv(cfg, s) && Tick(cfg, s, aggs, now, t, diffs)
    ensures Inv(cfg, t)
    ensures |t.active| >= cfg.minActive || aggs.Keys <= t.active
    ensures Replay(s.active, diffs) == t.active
    ensures forall e, y :: e in diffs && e.Add? && y in aggs && y !in t.active ==> Score(cfg, aggs[y]) <= e.score
  {
    var list, removes :| TickWith(cfg, s, aggs, now, t, diffs, list, removes);
    var swept := Swept(cfg, s, aggs, now);
    var (mid, adds) := Walk(swept, list, now, cfg.maxActive, Some(cfg.addScore), AboveAddScore);
    var (last, more) := Walk(mid, list, now, cfg.minActive, None, MinActiveFloor);
    SweptInv(cfg, s, aggs, now);
    TickSets(cfg, s, aggs, now, list);
    TickReplay(cfg, s, aggs, now, list, removes);
    TickBest(cfg, s, aggs, now, list, removes);
  }

  lemma {:induction false} TickSets(cfg: Config, s: Sel, aggs: map<Symbol, Agg>, now: int, list: seq<Scored>)
    requires Inv(cfg, s) && Ranking(cfg, list, aggs)
    ensures var t := TickState(cfg, s, aggs, now, list).0;
      Inv(cfg, t) && (|t.active| >= cfg.minActive || aggs.Keys <= t.active)
  {
    var swept := Swept(cfg, s, aggs, now);
    SweptInv(cfg, s, aggs, now);
    hide Swept, Walk, Rescore;
    var mid := Walk(swept, list, now, cfg.maxActive, Some(cfg.addScore), AboveAddScore).0;
    WalkSet(swept, list, now, cfg.maxActive, Some(cfg.addScore), AboveAddScore);
    WalkSet(mid, list, now, cfg.minActive, None, MinActiveFloor);
    var t := TickState(cfg, s, aggs, now, list).0;
    if |t.active| < cfg.minActive {
      forall x | x in aggs ensures x in t.active {
        assert Scored(x, Score(cfg, aggs[x])) in list;
      }
    }
  }

  lemma {:induction false} TickReplay(cfg: Config, s: Sel, aggs: map<Symbol, Agg>, now: int, list: seq<Scored>, removes: seq<Event>)
    requires Inv(cfg, s) && Removals(cfg, s, aggs, now, removes)
    ensures Replay(s.active, removes + TickState(cfg, s, aggs, now, list).1) == TickState(cfg, s, aggs, now, list).0.active
  {
    var swept := Swept(cfg, s, aggs, now);
    SweptInv(cfg, s, aggs, now);
    var gone := Evicted(cfg, Rescore(cfg, s.state, aggs), s.active, now);
    ReplayRemovals(s.active, removes, gone);
    assert Replay(s.active, removes) == swept.active;
    hide Swept, Walk, Rescore, Evicted, Removals;
    var (mid, adds) := Walk(swept, list, now, cfg.maxActive, Some(cfg.addScore), AboveAddScore);
    var (last, more) := Walk(mid, list, now, cfg.minActive, None, MinActiveFloor);
    WalkSet(swept, list, now, cfg.maxActive, Some(cfg.addScore), AboveAddScore);
    WalkSet(mid, list, now, cfg.minActive, None, MinActiveFloor);
    ReplayAppend(s.active, removes, adds + more);
    ReplayAppend(swept.active, adds, more);
  }

  lemma {:induction false} TickBest(cfg: Config, s: Sel, aggs: map<Symbol, Agg>, now: int, list: seq<Scored>, removes: seq<Event>)
    requires Ranking(cfg, list, aggs) && Removals(cfg, s, aggs, now, removes)
    ensures var (t, adds) := TickState(cfg, s, aggs, now, list);
      forall e, y :: e in removes + adds && e.Add? && y in aggs && y !in t.active ==> Score(cfg, aggs[y]) <= e.score
  {
    var swept := Swept(cfg, s, aggs, now);
    hide Swept, Walk, Rescore, Score;
    var (mid, adds) := Walk(swept, list, now, cfg.maxActive, Some(cfg.addScore), AboveAddScore);
    var (t, more) := Walk(mid, list, now, cfg.minActive, None, MinActiveFloor);
    WalkSet(mid, list, now, cfg.minActive, None, MinActiveFloor);
    WalkBest(swept, list, now, cfg.maxActive, Some(cfg.addScore), AboveAddScore);
    WalkBest(mid, list, now, cfg.minActive, None, MinActiveFloor);
    forall e, y | e in removes + (adds + more) && e.Add? && y in aggs && y !in t.active ensures Score(cfg, aggs[y]) <= e.score {
      assert e in adds || e in more;
      assert Scored(y, Score(cfg, aggs[y])) in list;
    }
  }

  // ---- the entry of one symbol over one tick ----

  ghost predicate HasRemove(events: seq<Event>, x: Symbol) { exists e :: e in events && e.Remove? && e.symbol == x }

  /** Over one tick a symbol that ends up active was either admitted now, or it was active before, was not
      evicted, and its entry was only judged. */
  lemma {:induction false} EntryStep(cfg: Config, s: Sel, aggs: map<Symbol, Agg>, now: int, t: Sel, diffs: seq<Event>, x: Symbol)
    requires Inv(cfg, s) && Tick(cfg, s, aggs, now, t, diffs) && x in t.active && x !in Mandatory(cfg)
    ensures x in t.state
    ensures
      || (JustAdmitted(t, x, now) && HasAdd(diffs, x))
      || (&& x in s.active && !HasRemove(diffs, x)
          && var st := Rescore(cfg, s.state, aggs)[x];
          !Judge(cfg, st, now).1 && t.state[x] == Judge(cfg, st, now).0)
  {
    var list, removes :| TickWith(cfg, s, aggs, now, t, diffs, list, removes);
    var swept := Swept(cfg, s, aggs, now);
    SweptInv(cfg, s, aggs, now);
    var (mid, adds) := Walk(swept, list, now, cfg.maxActive, Some(cfg.addScore), AboveAddScore);
    var (last, more) := Walk(mid, list, now, cfg.minActive, None, MinActiveFloor);
    WalkEntry(swept, list, now, cfg.maxActive, Some(cfg.addScore), AboveAddScore, x);
    WalkEntry(mid, list, now, cfg.minActive, None, MinActiveFloor, x);
    WalkSet(swept, list, now, cfg.maxActive, Some(cfg.addScore), AboveAddScore);
    WalkSet(mid, list, now, cfg.minActive, None, MinActiveFloor);
  }

  /** A removal was decided on the entry the symbol had after scoring. */
  lemma {:induction false} RemoveStep(cfg: Config, s: Sel, aggs: map<Symbol, Agg>, now: int, t: Sel, diffs: seq<Event>, x: Symbol)
    requires Inv(cfg, s) && Tick(cfg, s, aggs, now, t, diffs) && HasRemove(diffs, x)
    ensures x in s.active && x in s.state && x !in Mandatory(cfg)
    ensures Judge(cfg, Rescore(cfg, s.state, aggs)[x], now).1
  {
    var list, removes :| TickWith(cfg, s, aggs, now, t, diffs, list, removes);
    var swept := Swept(cfg, s, aggs, now);
    var mid := Walk(swept, list, now, cfg.maxActive, Some(cfg.addScore), AboveAddScore).0;
    WalkSet(swept, list, now, cfg.maxActive, Some(cfg.addScore), AboveAddScore);
    WalkSet(mid, list, now, cfg.minActive, None, MinActiveFloor);
    var e :| e in diffs && e.Remove? && e.symbol == x;
    assert e in removes;
  }

  // ---- whole runs ----

  datatype Input = Input(aggs: map<Symbol, Agg>, now: int)

  /** A steady_clock time point: a 64-bit count of nanoseconds. */
  predicate IsTime(t: int) { -0x8000_0000_0000_0000 <= t < 0x8000_0000_0000_0000 }

  /** A run of ticks from construction, with a clock that never goes back. */
  ghost predicate IsRun(cfg: Config, states: seq<Sel>, inputs: seq<Input>, diffs: seq<seq<Event>>) {
    && |states| == |inputs| + 1 == |diffs| + 1
    && states[0] == Initial(cfg)
    && (forall i :: 0 <= i < |inputs| ==> Tick(cfg, states[i], inputs[i].aggs, inputs[i].now, states[i + 1], diffs[i]))
    && (forall i :: 0 <= i < |inputs| ==> IsTime(inputs[i].now))
    && (forall i, j :: 0 <= i < j < |inputs| ==> inputs[i].now <= inputs[j].now)
  }

  lemma {:induction false} RunInv(cfg: Config, states: seq<Sel>, inputs: seq<Input>, diffs: seq<seq<Event>>, i: nat)
    requires IsRun(cfg, states, inputs, diffs) && i < |states|
    ensures Inv(cfg, states[i])
  {
    hide Tick, Inv, Initial;
    if i == 0 {
      InitialInv(cfg);
    } else {
      RunInv(cfg, states, inputs, diffs, i - 1);
      TickKeeps(cfg, states[i - 1], inputs[i - 1].aggs, inputs[i - 1].now, states[i], diffs[i - 1]);
    }
  }

  /** Across all ticks: the active set is what is flagged, contains the mandatory symbols, stays within its
      bound, reaches its floor or holds every known symbol, changes as reported, and no symbol added scores below
      one left out. */
  lemma {:induction false} SetInvariants(cfg: Config, states: seq<Sel>, inputs: seq<Input>, diffs: seq<seq<Event>>, i: nat)
    requires IsRun(cfg, states, inputs, diffs) && i < |inputs|
    ensures Inv(cfg, states[i + 1]) && Replay(states[i].active, diffs[i]) == states[i + 1].active
    ensures |states[i + 1].active| >= cfg.minActive || inputs[i].aggs.Keys <= states[i + 1].active
    ensures forall e, y :: e in diffs[i] && e.Add? && y in inputs[i].aggs && y !in states[i + 1].active ==>
              Score(cfg, inputs[i].aggs[y]) <= e.score
  {
    hide Score;
    RunInv(cfg, states, inputs, diffs, i);
    TickKeeps(cfg, states[i], inputs[i].aggs, inputs[i].now, states[i + 1], diffs[i]);
  }

  /** The score recorded for `x` at tick `l`. */
  ghost function Recorded(cfg: Config, states: seq<Sel>, inputs: seq<Input>, l: nat, x: Symbol): real
    requires l < |inputs| && l < |states|
  {
    Entry(Rescore(cfg, states[l].state, inputs[l].aggs), x).lastScore
  }

  /** `x` was admitted at tick `a` and has been active since, up to tick `k`. */
  ghost predicate ActiveSince(states: seq<Sel>, diffs: seq<seq<Event>>, a: nat, k: nat, x: Symbol) {
    && a < k <= |diffs| && k < |states| && HasAdd(diffs[a], x)
    && (forall l :: a < l <= k ==> x in states[l].active)
    && (forall l :: a < l < k ==> !HasRemove(diffs[l], x))
  }

  /** From tick `j` to before tick `k` the recorded score of `x` was below the threshold. */
  ghost predicate BelowDuring(cfg: Config, states: seq<Sel>, inputs: seq<Input>, j: nat, k: nat, x: Symbol) {
    k <= |inputs| && k < |states| && forall l :: j <= l < k ==> Recorded(cfg, states, inputs, l, x) < cfg.removeScore
  }

  /** Between two times the unsigned reading of whole seconds is the plain one. */
  lemma {:induction false} SecondsBetween(earlier: int, later: int, seconds: nat)
    requires IsTime(earlier) && IsTime(later) && earlier <= later
    ensures WholeSeconds(later - earlier) >= seconds <==> later - earlier >= seconds * NANOS
  {
  }

  /** With a clock that has gone back by a second or more, the unsigned reading is huge: hold and cool-off count as over. */
  lemma {:induction false} ClockGoneBack(d: int)
    requires -0x8000_0000_0000_0000 <= d < 0
    ensures WholeSeconds(d) == 0 <==> d > -1_000_000_000
    ensures d <= -1_000_000_000 ==> WholeSeconds(d) > 0x7FFF_FFFF_FFFF_FFFF
  {
    var q := (0 - d) / NANOS;
    assert q <= 0x8000_0000_0000_0000 / NANOS;
    if q > 0 { assert (0 - q) % 0x1_0000_0000_0000_0000 == 0x1_0000_0000_0000_0000 - q; }
  }

  lemma {:induction false} RescoreKeeps(cfg: Config, state: map<Symbol, SymbolState>, aggs: map<Symbol, Agg>, x: Symbol)
    requires x in state
    ensures var r := Rescore(cfg, state, aggs);
      x in r && r[x].admittedAt == state[x].admittedAt && r[x].belowSince == state[x].belowSince && r[x].active == state[x].active
  {
  }

  /** How judging an entry moves the start of its streak below the threshold. */
  lemma {:induction false} StreakStep(cfg: Config, st: SymbolState, now: int)
    requires IsTime(st.admittedAt) && IsTime(now) && st.admittedAt <= now
    requires st.belowSince.Some? ==> st.belowSince.value <= now && st.belowSince.value - st.admittedAt >= cfg.minHoldSeconds * NANOS
    ensures var r := Judge(cfg, st, now).0;
      && r.admittedAt == st.admittedAt
      && (r.belowSince.Some? ==>
            && st.lastScore < cfg.removeScore
            && (st.belowSince.Some? ==> r.belowSince == st.belowSince)
            && (st.belowSince.None? ==> r.belowSince == Some(now) && now - st.admittedAt >= cfg.minHoldSeconds * NANOS))
  {
    SecondsBetween(st.admittedAt, now, cfg.minHoldSeconds);
  }

  /** What a decision to evict says about the entry it was taken on. */
  lemma {:induction false} EvictStreak(cfg: Config, st: SymbolState, now: int)
    requires IsTime(st.admittedAt) && IsTime(now) && st.admittedAt <= now && Judge(cfg, st, now).1
    requires st.belowSince.Some? ==> IsTime(st.belowSince.value) && st.belowSince.value <= now
    ensures st.lastScore < cfg.removeScore && now - st.admittedAt >= cfg.minHoldSeconds * NANOS
    ensures var since := if st.belowSince.Some? then st.belowSince.value else now;
      now - since >= cfg.cooloffSeconds * NANOS
  {
    SecondsBetween(st.admittedAt, now, cfg.minHoldSeconds);
    SecondsBetween(if st.belowSince.Some? then st.belowSince.value else now, now, cfg.cooloffSeconds);
  }

  /** The history behind the entry of an active symbol. */
  ghost predicate Explained(cfg: Config, states: seq<Sel>, inputs: seq<Input>, diffs: seq<seq<Event>>, k: nat, x: Symbol, a: nat, j: nat) {
    && |inputs| == |diffs| && k < |states| && x in states[k].state
    && ActiveSince(states, diffs, a, k, x) && states[k].state[x].admittedAt == inputs[a].now
    && (states[k].state[x].belowSince.Some? ==>
          && a < j < k && states[k].state[x].belowSince.value == inputs[j].now
          && inputs[j].now - inputs[a].now >= cfg.minHoldSeconds * NANOS
          && BelowDuring(cfg, states, inputs, j, k, x))
  }

  lemma {:induction false} History(cfg: Config, states: seq<Sel>, inputs: seq<Input>, diffs: seq<seq<Event>>, k: nat, x: Symbol)
    returns (a: nat, j: nat)
    requires IsRun(cfg, states, inputs, diffs) && k < |states|
    requires x in states[k].active && x !in Mandatory(cfg)
    ensures Explained(cfg, states, inputs, diffs, k, x, a, j)
  {
    hide Tick, Rescore, Judge, Mandatory;
    RunInv(cfg, states, inputs, diffs, k - 1);
    var s, t, aggs, now := states[k - 1], states[k], inputs[k - 1].aggs, inputs[k - 1].now;
    EntryStep(cfg, s, aggs, now, t, diffs[k - 1], x);
    if JustAdmitted(t, x, now) && HasAdd(diffs[k - 1], x) {
      a, j := k - 1, k - 1;
    } else {
      a, j := History(cfg, states, inputs, diffs, k - 1, x);
      RescoreKeeps(cfg, s.state, aggs, x);
      var st := Rescore(cfg, s.state, aggs)[x];
      StreakStep(cfg, st, now);
      if st.belowSince.None? { j := k - 1; }
    }
  }

  /** Eviction timing: a removed symbol is not mandatory; at least min_hold and cool-off have passed since its
      latest admission; and its recorded score was below remove_score at every tick of the final streak, which
      lasted at least the cool-off. */
  lemma {:induction false} EvictionTiming(cfg: Config, states: seq<Sel>, inputs: seq<Input>, diffs: seq<seq<Event>>, k: nat, x: Symbol)
    returns (a: nat, j: nat)
    requires IsRun(cfg, states, inputs, diffs) && k < |inputs| && HasRemove(diffs[k], x)
    ensures x !in Mandatory(cfg)
    ensures a < j <= k && ActiveSince(states, diffs, a, k, x)
    ensures inputs[k].now - inputs[a].now >= (cfg.minHoldSeconds + cfg.cooloffSeconds) * NANOS
    ensures inputs[j].now - inputs[a].now >= cfg.minHoldSeconds * NANOS
    ensures inputs[k].now - inputs[j].now >= cfg.cooloffSeconds * NANOS
    ensures BelowDuring(cfg, states, inputs, j, k + 1, x)
  {
    hide Tick, Rescore, Mandatory, Judge, HasRemove, HasAdd, Inv, Initial;
    RunInv(cfg, states, inputs, diffs, k);
    RemoveStep(cfg, states[k], inputs[k].aggs, inputs[k].now, states[k + 1], diffs[k], x);
    a, j := History(cfg, states, inputs, diffs, k, x);
    RescoreKeeps(cfg, states[k].state, inputs[k].aggs, x);
    var st, now := Rescore(cfg, states[k].state, inputs[k].aggs)[x], inputs[k].now;
    EvictStreak(cfg, st, now);
    if st.belowSince.None? { j := k; }
    assert Recorded(cfg, states, inputs, k, x) == st.lastScore;
  }

  // ---- eviction is due ----

  /** Over one tick: an active symbol on which eviction was decided is removed. */
  lemma {:induction false} RemoveDue(cfg: Config, s: Sel, aggs: map<Symbol, Agg>, now: int, t: Sel, diffs: seq<Event>, x: Symbol)
    requires Inv(cfg, s) && Tick(cfg, s, aggs, now, t, diffs) && x in s.active && x !in Mandatory(cfg)
    requires x in Rescore(cfg, s.state, aggs) && Judge(cfg, Rescore(cfg, s.state, aggs)[x], now).1
    ensures HasRemove(diffs, x)
  {
    hide Walk, Ranking, TickState, Score, Judge, Rescore;
    var list, removes :| TickWith(cfg, s, aggs, now, t, diffs, list, removes);
    assert x in Evicted(cfg, Rescore(cfg, s.state, aggs), s.active, now);
    var e: Event :| e in removes && e.symbol == x;
    assert e in diffs;
  }

  /** Only symbols that were not active, or were removed in the same tick, are added. */
  lemma {:induction false} AddStep(cfg: Config, s: Sel, aggs: map<Symbol, Agg>, now: int, t: Sel, diffs: seq<Event>, x: Symbol)
    requires Inv(cfg, s) && Tick(cfg, s, aggs, now, t, diffs) && HasAdd(diffs, x)
    ensures x !in s.active || HasRemove(diffs, x)
  {
    var list, removes :| TickWith(cfg, s, aggs, now, t, diffs, list, removes);
    var swept := Swept(cfg, s, aggs, now);
    SweptInv(cfg, s, aggs, now);
    hide Walk, Ranking, Score, Judge, Rescore, Swept;
    var mid := Walk(swept, list, now, cfg.maxActive, Some(cfg.addScore), AboveAddScore).0;
    WalkSet(swept, list, now, cfg.maxActive, Some(cfg.addScore), AboveAddScore);
    WalkSet(mid, list, now, cfg.minActive, None, MinActiveFloor);
    var e :| e in diffs && e.Add? && e.symbol == x;
    if x in s.active {
      var r: Event :| r in removes && r.symbol == x;
      assert r in diffs;
    }
  }

  /** A symbol has one latest admission. */
  lemma {:induction false} SameAdmission(cfg: Config, states: seq<Sel>, inputs: seq<Input>, diffs: seq<seq<Event>>, a: nat, b: nat, k: nat, x: Symbol)
    requires IsRun(cfg, states, inputs, diffs) && ActiveSince(states, diffs, a, k, x) && ActiveSince(states, diffs, b, k, x)
    ensures a == b
  {
    hide Tick, Inv, HasAdd, HasRemove, Initial;
    var late := if a < b then b else a;
    RunInv(cfg, states, inputs, diffs, late);
    AddStep(cfg, states[late], inputs[late].aggs, inputs[late].now, states[late + 1], diffs[late], x);
  }

  /** The entry of a symbol that stays active is the judged one. */
  lemma {:induction false} StayStep(cfg: Config, s: Sel, aggs: map<Symbol, Agg>, now: int, t: Sel, diffs: seq<Event>, x: Symbol)
    requires Inv(cfg, s) && Tick(cfg, s, aggs, now, t, diffs) && x in s.active && x in t.active && x !in Mandatory(cfg) && !HasRemove(diffs, x)
    ensures x in s.state && x in t.state && x in Rescore(cfg, s.state, aggs)
    ensures t.state[x] == Judge(cfg, Rescore(cfg, s.state, aggs)[x], now).0
  {
    EntryStep(cfg, s, aggs, now, t, diffs, x);
    if HasAdd(diffs, x) { AddStep(cfg, s, aggs, now, t, diffs, x); assert false; }
    hide Tick, Judge, Rescore;
    RescoreKeeps(cfg, s.state, aggs, x);
  }

  /** At tick `k` the streak that began at tick `j`, with the hold over, has lasted the cool-off. */
  ghost predicate DueSince(cfg: Config, states: seq<Sel>, inputs: seq<Input>, a: nat, j: nat, k: nat, x: Symbol) {
    && a < j <= k < |inputs| && BelowDuring(cfg, states, inputs, j, k + 1, x)
    && inputs[j].now - inputs[a].now >= cfg.minHoldSeconds * 1_000_000_000
    && inputs[k].now - inputs[j].now >= cfg.cooloffSeconds * 1_000_000_000
  }

  /** Judging a held entry with a low score starts a streak or keeps the one that runs. */
  lemma {:induction false} JudgeLow(cfg: Config, st: SymbolState, now: int)
    requires IsTime(st.admittedAt) && IsTime(now) && now - st.admittedAt >= cfg.minHoldSeconds * NANOS && st.lastScore < cfg.removeScore
    ensures var r := Judge(cfg, st, now).0;
      r.admittedAt == st.admittedAt && r.belowSince == Some(if st.belowSince.Some? then st.belowSince.value else now)
    ensures st.belowSince.Some? && IsTime(st.belowSince.value) && st.belowSince.value <= now ==>
      Judge(cfg, st, now).1 == (now - st.belowSince.value >= cfg.cooloffSeconds * NANOS)
    ensures st.belowSince.None? ==> Judge(cfg, st, now).1 == (cfg.cooloffSeconds == 0)
  {
    SecondsBetween(st.admittedAt, now, cfg.minHoldSeconds);
    if st.belowSince.Some? && IsTime(st.belowSince.value) && st.belowSince.value <= now {
      SecondsBetween(st.belowSince.value, now, cfg.cooloffSeconds);
    }
  }

  /** The admission stamp, and no streak that starts in the future. */
  ghost predicate Stamped(cfg: Config, states: seq<Sel>, inputs: seq<Input>, a: nat, l: nat, x: Symbol) {
    && a < l < |states| && l <= |inputs| && x in states[l].state && states[l].state[x].admittedAt == inputs[a].now
    && (states[l].state[x].belowSince.Some? ==>
          IsTime(states[l].state[x].belowSince.value) && states[l].state[x].belowSince.value <= inputs[l - 1].now)
  }

  lemma {:induction false} StampedAt(cfg: Config, states: seq<Sel>, inputs: seq<Input>, diffs: seq<seq<Event>>, a: nat, l: nat, k: nat, x: Symbol)
    requires IsRun(cfg, states, inputs, diffs) && ActiveSince(states, diffs, a, k, x) && a < l <= k && x !in Mandatory(cfg)
    ensures Stamped(cfg, states, inputs, a, l, x)
  {
    hide Tick, Inv, HasAdd, HasRemove, Initial, Mandatory;
    var b, j := History(cfg, states, inputs, diffs, l, x);
    SameAdmission(cfg, states, inputs, diffs, a, b, l, x);
  }

  /** Once the hold is over, a streak that has begun runs on for as long as the scores stay low. */
  lemma {:induction false} StreakRuns(cfg: Config, states: seq<Sel>, inputs: seq<Input>, diffs: seq<seq<Event>>, a: nat, j: nat, l: nat, k: nat, x: Symbol)
    requires IsRun(cfg, states, inputs, diffs) && ActiveSince(states, diffs, a, k, x) && x !in Mandatory(cfg)
    requires a < j < l <= k < |inputs| && BelowDuring(cfg, states, inputs, j, k + 1, x)
    requires inputs[j].now - inputs[a].now >= cfg.minHoldSeconds * NANOS
    ensures x in states[l].state && states[l].state[x].belowSince.Some? && states[l].state[x].belowSince.value <= inputs[j].now
    decreases l
  {
    hide Tick, Inv, HasAdd, HasRemove, Initial, Mandatory, Judge, Rescore;
    var p := l - 1;
    StampedAt(cfg, states, inputs, diffs, a, p, k, x);
    StampedAt(cfg, states, inputs, diffs, a, l, k, x);
    RunInv(cfg, states, inputs, diffs, p);
    StayStep(cfg, states[p], inputs[p].aggs, inputs[p].now, states[l], diffs[p], x);
    RescoreKeeps(cfg, states[p].state, inputs[p].aggs, x);
    var st := Rescore(cfg, states[p].state, inputs[p].aggs)[x];
    assert Recorded(cfg, states, inputs, p, x) == st.lastScore;
    JudgeLow(cfg, st, inputs[p].now);
    if j < p { StreakRuns(cfg, states, inputs, diffs, a, j, p, k, x); }
  }

  /** Eviction is exact: a symbol that is active since its admission and not mandatory is removed at a tick if and only
      if its hold was over at some tick from which on it scored below remove_score for at least the cool-off. */
  lemma {:induction false} EvictionIff(cfg: Config, states: seq<Sel>, inputs: seq<Input>, diffs: seq<seq<Event>>, a: nat, k: nat, x: Symbol)
    requires IsRun(cfg, states, inputs, diffs) && k < |inputs| && ActiveSince(states, diffs, a, k, x) && x !in Mandatory(cfg)
    ensures HasRemove(diffs[k], x) <==> exists j: nat :: DueSince(cfg, states, inputs, a, j, k, x)
  {
    hide Tick, Inv, HasAdd, HasRemove, Initial, Mandatory, Judge, Rescore;
    if HasRemove(diffs[k], x) {
      var b, j := EvictionTiming(cfg, states, inputs, diffs, k, x);
      SameAdmission(cfg, states, inputs, diffs, a, b, k, x);
      assert DueSince(cfg, states, inputs, a, j, k, x);
    }
    if j: nat :| DueSince(cfg, states, inputs, a, j, k, x) {
      StampedAt(cfg, states, inputs, diffs, a, k, k, x);
      if j < k { StreakRuns(cfg, states, inputs, diffs, a, j, k, k, x); }
      RunInv(cfg, states, inputs, diffs, k);
      RescoreKeeps(cfg, states[k].state, inputs[k].aggs, x);
      var st := Rescore(cfg, states[k].state, inputs[k].aggs)[x];
      assert Recorded(cfg, states, inputs, k, x) == st.lastScore;
      JudgeLow(cfg, st, inputs[k].now);
      RemoveDue(cfg, states[k], inputs[k].aggs, inputs[k].now, states[k + 1], diffs[k], x);
    }
  }

  // ---- admission is due ----

  /** At every tick of every run: while there is room everybody at or above add_score is active; additions are reported
      with their score; and one below add_score is made only to fill up to min_active. */
  lemma {:induction false} AdmissionRule(cfg: Config, states: seq<Sel>, inputs: seq<Input>, diffs: seq<seq<Event>>, i: nat)
    requires IsRun(cfg, states, inputs, diffs) && i < |inputs|
    ensures var t, aggs := states[i + 1], inputs[i].aggs;
      && (|t.active| >= cfg.maxActive || forall y :: y in aggs && Score(cfg, aggs[y]) >= cfg.addScore ==> y in t.active)
      && (forall e :: e in diffs[i] && e.Add? ==>
            && e.symbol in aggs && e.score == Score(cfg, aggs[e.symbol])
            && (e.reason == AboveAddScore || e.reason == MinActiveFloor)
            && (e.reason == AboveAddScore ==> e.score >= cfg.addScore)
            && (e.score < cfg.addScore ==> |t.active| <= cfg.minActive))
  {
    hide Tick;
    TickAdmits(cfg, states[i], inputs[i].aggs, inputs[i].now, states[i + 1], diffs[i]);
  }

  lemma {:induction false} TickAdmits(cfg: Config, s: Sel, aggs: map<Symbol, Agg>, now: int, t: Sel, diffs: seq<Event>)
    requires Tick(cfg, s, aggs, now, t, diffs)
    ensures |t.active| >= cfg.maxActive || forall y :: y in aggs && Score(cfg, aggs[y]) >= cfg.addScore ==> y in t.active
    ensures forall e :: e in diffs && e.Add? ==>
      && e.symbol in aggs && e.score == Score(cfg, aggs[e.symbol])
      && (e.reason == AboveAddScore || e.reason == MinActiveFloor)
      && (e.reason == AboveAddScore ==> e.score >= cfg.addScore)
      && (e.score < cfg.addScore ==> |t.active| <= cfg.minActive)
  {
    var list, removes :| TickWith(cfg, s, aggs, now, t, diffs, list, removes);
    var swept := Swept(cfg, s, aggs, now);
    hide Walk, Score, Rescore, Swept, Evicted, Ranking;
    AdmittedActive(cfg, swept, aggs, now, list);
    forall e | e in diffs && e.Add? ensures e in TickState(cfg, s, aggs, now, list).1 {
    }
    AdmittedEvents(cfg, swept, aggs, now, list);
  }

  lemma {:induction false} AdmittedActive(cfg: Config, swept: Sel, aggs: map<Symbol, Agg>, now: int, list: seq<Scored>)
    requires Ranking(cfg, list, aggs)
    ensures var mid := Walk(swept, list, now, cfg.maxActive, Some(cfg.addScore), AboveAddScore).0;
      var t := Walk(mid, list, now, cfg.minActive, None, MinActiveFloor).0;
      |t.active| >= cfg.maxActive || forall y :: y in aggs && Score(cfg, aggs[y]) >= cfg.addScore ==> y in t.active
  {
    hide Walk, Score, FlagsMatch, Replay;
    var mid := Walk(swept, list, now, cfg.maxActive, Some(cfg.addScore), AboveAddScore).0;
    var t := Walk(mid, list, now, cfg.minActive, None, MinActiveFloor).0;
    WalkSet(mid, list, now, cfg.minActive, None, MinActiveFloor);
    WalkFloor(swept, list, now, cfg.maxActive, cfg.addScore, AboveAddScore);
    SubsetSize(mid.active, t.active);
    forall y | y in aggs && Score(cfg, aggs[y]) >= cfg.addScore && |t.active| < cfg.maxActive ensures y in t.active {
      assert Scored(y, Score(cfg, aggs[y])) in list;
    }
  }

  lemma {:induction false} AdmittedEvents(cfg: Config, swept: Sel, aggs: map<Symbol, Agg>, now: int, list: seq<Scored>)
    requires Ranking(cfg, list, aggs)
    ensures var (mid, adds) := Walk(swept, list, now, cfg.maxActive, Some(cfg.addScore), AboveAddScore);
      var (t, more) := Walk(mid, list, now, cfg.minActive, None, MinActiveFloor);
      forall e :: e in adds + more ==>
        && e.Add? && e.symbol in aggs && e.score == Score(cfg, aggs[e.symbol])
        && (e.reason == AboveAddScore || e.reason == MinActiveFloor)
        && (e.reason == AboveAddScore ==> e.score >= cfg.addScore)
        && (e.score < cfg.addScore ==> |t.active| <= cfg.minActive)
  {
    hide Walk, Score, FlagsMatch, Replay;
    var (mid, adds) := Walk(swept, list, now, cfg.maxActive, Some(cfg.addScore), AboveAddScore);
    var (t, more) := Walk(mid, list, now, cfg.minActive, None, MinActiveFloor);
    WalkSet(swept, list, now, cfg.maxActive, Some(cfg.addScore), AboveAddScore);
    WalkSet(mid, list, now, cfg.minActive, None, MinActiveFloor);
    WalkFloor(swept, list, now, cfg.maxActive, cfg.addScore, AboveAddScore);
    forall e | e in more ensures |t.active| <= cfg.minActive {
      SubsetSize(mid.active + {e.symbol}, t.active);
    }
  }

  // ---- removals ----

  /** Removals are reported with the recorded score, which is below remove_score, and their reason; and a symbol that is
      not active has no streak. */
  lemma {:induction false} RemovalRule(cfg: Config, states: seq<Sel>, inputs: seq<Input>, diffs: seq<seq<Event>>, i: nat)
    requires IsRun(cfg, states, inputs, diffs) && i < |inputs|
    ensures forall e :: e in diffs[i] && e.Remove? ==>
      e.reason == BelowRemoveScore && e.score == Recorded(cfg, states, inputs, i, e.symbol) < cfg.removeScore
    ensures NoStreaks(states[i + 1])
  {
    hide Tick, Rescore, Judge, Inv;
    RunInv(cfg, states, inputs, diffs, i);
    StreakFree(cfg, states, inputs, diffs, i + 1);
    forall e | e in diffs[i] && e.Remove?
      ensures e.reason == BelowRemoveScore && e.score == Recorded(cfg, states, inputs, i, e.symbol) < cfg.removeScore
    {
      RemovedScore(cfg, states[i], inputs[i].aggs, inputs[i].now, states[i + 1], diffs[i], e);
    }
  }

  lemma {:induction false} RemovedScore(cfg: Config, s: Sel, aggs: map<Symbol, Agg>, now: int, t: Sel, diffs: seq<Event>, e: Event)
    requires Inv(cfg, s) && Tick(cfg, s, aggs, now, t, diffs) && e in diffs && e.Remove?
    ensures e.reason == BelowRemoveScore && e.score == Entry(Rescore(cfg, s.state, aggs), e.symbol).lastScore < cfg.removeScore
  {
    var list, removes :| TickWith(cfg, s, aggs, now, t, diffs, list, removes);
    hide Walk, Ranking, Score, Rescore, WholeSeconds;
    var swept := Swept(cfg, s, aggs, now);
    var mid := Walk(swept, list, now, cfg.maxActive, Some(cfg.addScore), AboveAddScore).0;
    WalkSet(swept, list, now, cfg.maxActive, Some(cfg.addScore), AboveAddScore);
    WalkSet(mid, list, now, cfg.minActive, None, MinActiveFloor);
    assert e in removes;
  }

  ghost predicate NoStreaks(s: Sel) { forall x :: x in s.state && x !in s.active ==> s.state[x].belowSince.None? }

  lemma {:induction false} StreakFree(cfg: Config, states: seq<Sel>, inputs: seq<Input>, diffs: seq<seq<Event>>, i: nat)
    requires IsRun(cfg, states, inputs, diffs) && i < |states|
    ensures NoStreaks(states[i])
  {
    if i > 0 {
      hide Tick;
      StreakFree(cfg, states, inputs, diffs, i - 1);
      TickStreaks(cfg, states[i - 1], inputs[i - 1].aggs, inputs[i - 1].now, states[i], diffs[i - 1]);
    }
  }

  lemma {:induction false} TickStreaks(cfg: Config, s: Sel, aggs: map<Symbol, Agg>, now: int, t: Sel, diffs: seq<Event>)
    requires NoStreaks(s) && Tick(cfg, s, aggs, now, t, diffs)
    ensures NoStreaks(t)
  {
    var list, removes :| TickWith(cfg, s, aggs, now, t, diffs, list, removes);
    var swept := Swept(cfg, s, aggs, now);
    SweptStreaks(cfg, s, aggs, now);
    hide Walk, Ranking, Swept, Removals;
    var mid := Walk(swept, list, now, cfg.maxActive, Some(cfg.addScore), AboveAddScore).0;
    WalkSet(swept, list, now, cfg.maxActive, Some(cfg.addScore), AboveAddScore);
    WalkSet(mid, list, now, cfg.minActive, None, MinActiveFloor);
    forall x | x in t.state && x !in t.active ensures t.state[x].belowSince.None? {
      WalkEntry(swept, list, now, cfg.maxActive, Some(cfg.addScore), AboveAddScore, x);
      WalkEntry(mid, list, now, cfg.minActive, None, MinActiveFloor, x);
    }
  }

  lemma {:induction false} SweptStreaks(cfg: Config, s: Sel, aggs: map<Symbol, Agg>, now: int)
    requires NoStreaks(s)
    ensures NoStreaks(Swept(cfg, s, aggs, now))
  {
    hide Judge, Score;
  }
}
