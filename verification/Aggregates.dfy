/** The ring-buffer windows of a symbol and the screener that feeds them from rolling totals. */
module Aggregates {
  import opened WindowModel

  /** A ring buffer, read from the bucket behind the head round to the head. */
  function Ring(b: seq<Bucket>, head: nat): (r: seq<Bucket>)
    requires head < |b|
    ensures |r| == |b|
  {
    b[head + 1..] + b[..head + 1]
  }

  lemma {:induction false} RingTurn(b: seq<Bucket>, head: nat, h: nat)
    requires head < |b| && h == if head + 1 == |b| then 0 else head + 1
    ensures Ring(b[h := EMPTY], h) == Ring(b, head)[1..] + [EMPTY]
  {
    var c := b[h := EMPTY];
    assert c[h + 1..] == b[h + 1..] && c[..h + 1] == b[..h] + [EMPTY];
    assert Ring(c, h) == (b[h + 1..] + b[..h]) + [EMPTY];
    assert Ring(b, head)[1..] == b[h + 1..] + b[..h];
  }

  /** tf_window. */
  class TfWindow {
    const bucketSeconds: int
    const buckets: array<Bucket>
    var head: nat
    var headTime: int

    ghost predicate Valid()
      reads this
    {
      bucketSeconds > 0 && buckets.Length > 0 && head < buckets.Length
    }

    ghost function Contents(): (w: Win)
      requires Valid()
      reads this, buckets
      ensures |w.slots| == buckets.Length
    {
      Win(Ring(buckets[..], head), headTime)
    }

    constructor (n: nat, bucketSeconds: int)
      requires n > 0 && bucketSeconds > 0
      ensures Valid() && fresh(buckets) && this.bucketSeconds == bucketSeconds && buckets.Length == n
      ensures Contents() == Win(Blanks(n), 0)
    {
      this.bucketSeconds := bucketSeconds;
      buckets := new Bucket[n](_ => EMPTY);
      head, headTime := 0, 0;
    }

    /** Turning the ring by one position. */
    method Turn()
      requires Valid()
      modifies this`head, buckets
      ensures Valid() && headTime == old(headTime)
      ensures Contents().slots == old(Contents()).slots[1..] + [EMPTY]
    {
      hide Ring;
      RingTurn(buckets[..], head, if head + 1 == buckets.Length then 0 else head + 1);
      head := (head + 1) % buckets.Length;
      buckets[head] := EMPTY;
      assert buckets[..] == old(buckets[..])[head := EMPTY];
    }

    method AdvanceTo(now: int)
      requires Valid()
      modifies this, buckets
      ensures Valid() && Contents() == Advance(old(Contents()), bucketSeconds, now)
    {
      hide Ring;
      if headTime == 0 {
        headTime := now;
        return;
      }
      if now <= headTime { return; }
      var deltaSecs := (now - headTime) / NANOS;
      var steps := deltaSecs / bucketSeconds;
      if steps <= 0 { return; }
      var effective := Min(steps, buckets.Length);
      ghost var slots := Contents().slots;
      assert Slide(slots, 0) == slots;
      for i := 0 to effective
        invariant Valid() && headTime == old(headTime)
        invariant Contents().slots == Slide(slots, i)
      {
        Turn();
        assert Slide(slots, i)[1..] + [EMPTY] == Slide(slots, i + 1);
      }
      headTime := headTime + steps * bucketSeconds * NANOS;
    }

    method Update(now: int, dv: real, dt: real)
      requires Valid()
      modifies this, buckets
      ensures Valid() && Contents() == WindowModel.Update(old(Contents()), bucketSeconds, Delta(now, Bucket(dv, dt)))
    {
      AdvanceTo(now);
      ghost var slots := Contents().slots;
      var b := buckets[head];
      buckets[head] := Bucket(b.vol + dv, b.trades + dt);
      assert Contents().slots == AddToHead(slots, Bucket(dv, dt));
    }

    /** vol_sum and trades_sum: the loops run over the ring in storage order. */
    method Sums() returns (vol: real, trades: real)
      requires Valid()
      ensures Bucket(vol, trades) == Sum(Contents().slots)
    {
      vol, trades := 0.0, 0.0;
      for i := 0 to buckets.Length
        invariant Bucket(vol, trades) == Sum(buckets[..i])
      {
        assert buckets[..i + 1] == buckets[..i] + [buckets[i]];
        SumAppend(buckets[..i], [buckets[i]]);
        SumOne(buckets[i]);
        vol, trades := vol + buckets[i].vol, trades + buckets[i].trades;
      }
      assert buckets[..] == buckets[..][..head + 1] + buckets[..][head + 1..];
      assert buckets[..buckets.Length] == buckets[..];
      SumAppend(buckets[..][..head + 1], buckets[..][head + 1..]);
      SumAppend(buckets[..][head + 1..], buckets[..][..head + 1]);
    }
  }

  lemma {:induction false} SumOne(b: Bucket)
    ensures Sum([b]) == b
  {
    assert [b][1..] == [];
  }

  // ---- totals to deltas ----

  /** One `!ticker@arr` entry of a symbol: when it was handled and its 24h rolling totals. */
  datatype Sample = Sample(time: int, volume: real, tradeCount: nat)

  /** The credit of a new total over the cached one: a smaller total means the rolling total has wrapped. */
  function VolumeDelta(prev: real, next: real): real { if next < prev then next else next - prev }

  function TradeDelta(prev: nat, next: nat): real { if next < prev then next as real else (next - prev) as real }

  function Credit(prev: Sample, next: Sample): Delta {
    Delta(next.time, Bucket(VolumeDelta(prev.volume, next.volume), TradeDelta(prev.tradeCount, next.tradeCount)))
  }

  /** The updates a sequence of samples makes; the first sample only primes the cache. */
  function Credits(samples: seq<Sample>): (r: seq<Delta>)
    ensures |r| == if samples == [] then 0 else |samples| - 1
  {
    if |samples| <= 1 then [] else Credits(samples[..|samples| - 1]) + [Credit(samples[|samples| - 2], samples[|samples| - 1])]
  }

  function CreditedVolume(trace: seq<Delta>): real {
    if trace == [] then 0.0 else CreditedVolume(trace[..|trace| - 1]) + trace[|trace| - 1].amount.vol
  }

  function CreditedTrades(trace: seq<Delta>): real {
    if trace == [] then 0.0 else CreditedTrades(trace[..|trace| - 1]) + trace[|trace| - 1].amount.trades
  }

  /** The total that a wrap between two samples takes away. */
  function VolumeWrap(last: Sample, next: Sample): real { if next.volume < last.volume then last.volume else 0.0 }

  function TradesWrap(last: Sample, next: Sample): real {
    if next.tradeCount < last.tradeCount then last.tradeCount as real else 0.0
  }

  /** Sums of the totals seen just before each wrap. */
  function WrappedVolume(samples: seq<Sample>): real {
    if |samples| <= 1 then 0.0
    else WrappedVolume(samples[..|samples| - 1]) + VolumeWrap(samples[|samples| - 2], samples[|samples| - 1])
  }

  function WrappedTrades(samples: seq<Sample>): real {
    if |samples| <= 1 then 0.0
    else WrappedTrades(samples[..|samples| - 1]) + TradesWrap(samples[|samples| - 2], samples[|samples| - 1])
  }

  /** Conservation, for the volume and for the trade count: what was credited plus the first total is the last total
      plus the totals before the wraps. */
  lemma {:induction false} DeltaConservation(samples: seq<Sample>)
    requires samples != []
    ensures CreditedVolume(Credits(samples)) + samples[0].volume == samples[|samples| - 1].volume + WrappedVolume(samples)
    ensures CreditedTrades(Credits(samples)) + samples[0].tradeCount as real
         == samples[|samples| - 1].tradeCount as real + WrappedTrades(samples)
  {
    VolumeConserved(samples);
    TradesConserved(samples);
    hide Credits, CreditedVolume, CreditedTrades, WrappedVolume, WrappedTrades;
  }

  lemma {:induction false} VolumeConserved(samples: seq<Sample>)
    requires samples != []
    ensures CreditedVolume(Credits(samples)) + samples[0].volume == samples[|samples| - 1].volume + WrappedVolume(samples)
  {
    if |samples| > 1 {
      var p := samples[..|samples| - 1];
      VolumeConserved(p);
      assert Credits(samples)[..|samples| - 2] == Credits(p);
    }
  }

  lemma {:induction false} TradesConserved(samples: seq<Sample>)
    requires samples != []
    ensures CreditedTrades(Credits(samples)) + samples[0].tradeCount as real
         == samples[|samples| - 1].tradeCount as real + WrappedTrades(samples)
  {
    if |samples| > 1 {
      var p := samples[..|samples| - 1];
      TradesConserved(p);
      assert Credits(samples)[..|samples| - 2] == Credits(p);
    }
  }

  /** Samples arrive in time order with totals that are not negative. */
  ghost predicate Plausible(samples: seq<Sample>) {
    && (forall i :: 0 <= i < |samples| ==> samples[i].time >= 0 && samples[i].volume >= 0.0)
    && (forall i, j :: 0 <= i < j < |samples| ==> samples[i].time <= samples[j].time)
  }

  lemma {:induction false} CreditAt(samples: seq<Sample>, i: nat)
    requires i + 1 < |samples|
    ensures Credits(samples)[i] == Credit(samples[i], samples[i + 1])
  {
    if i + 2 < |samples| { CreditAt(samples[..|samples| - 1], i); }
  }

  lemma {:induction false} CreditsPlausible(samples: seq<Sample>)
    requires Plausible(samples)
    ensures Ordered(Credits(samples)) && NonNegative(Credits(samples))
  {
    var c := Credits(samples);
    hide Credits;
    forall i | 0 <= i < |c| ensures c[i].time == samples[i + 1].time && c[i].time >= 0 && c[i].amount.vol >= 0.0 && c[i].amount.trades >= 0.0 {
      CreditAt(samples, i);
    }
    forall i, j | 0 <= i < j < |c| ensures c[i].time <= c[j].time {
      assert samples[i + 1].time <= samples[j + 1].time;
    }
  }

  /** One more sample: nothing for the first, otherwise one more update of every window. */
  lemma {:induction false} CreditsPush(samples: seq<Sample>, next: Sample, size: int)
    requires size > 0
    ensures var before, after := Credits(samples), Credits(samples + [next]);
      if samples == [] then after == before
      else Run(after, 60, size) == WindowModel.Update(Run(before, 60, size), size, Credit(samples[|samples| - 1], next))
  {
    var all := samples + [next];
    if samples != [] {
      assert all[..|all| - 1] == samples;
      var after := Credits(all);
      assert after[..|after| - 1] == Credits(samples);
    }
  }

  /** symbol_agg: the cached totals and the three windows fed from them. `samples` records what arrived. */
  class SymbolAgg {
    ghost var samples: seq<Sample>
    var lastQuoteVolume: real
    var lastTradeCount: nat
    var primed: bool
    const win1m: TfWindow
    const win5m: TfWindow
    const win1h: TfWindow

    ghost function Parts(): set<object>
      reads this
    {
      {this, win1m, win5m, win1h, win1m.buckets, win5m.buckets, win1h.buckets}
    }

    ghost predicate Shows(w: TfWindow, size: int)
      reads this, w, w.buckets
    {
      w.Valid() && w.bucketSeconds == size && w.buckets.Length == 60 && w.Contents() == Run(Credits(samples), 60, size)
    }

    ghost predicate Valid()
      reads Parts()
    {
      && Separate()
      && Shows(win1m, 1) && Shows(win5m, 5) && Shows(win1h, 60)
      && (primed <==> samples != [])
      && (primed ==> var last := samples[|samples| - 1]; lastQuoteVolume == last.volume && lastTradeCount == last.tradeCount)
    }

    constructor ()
      ensures Valid() && samples == [] && fresh(Parts())
    {
      samples := [];
      lastQuoteVolume, lastTradeCount, primed := 0.0, 0, false;
      win1m := new TfWindow(60, 1);
      win5m := new TfWindow(60, 5);
      win1h := new TfWindow(60, 60);
    }

    ghost predicate Separate()
      reads this
    {
      && win1m != win5m && win1m != win1h && win5m != win1h
      && win1m.buckets != win5m.buckets && win1m.buckets != win1h.buckets && win5m.buckets != win1h.buckets
    }

    /** The same delta goes into all three windows. */
    method Feed(now: int, dv: real, dt: real)
      requires Separate() && win1m.Valid() && win5m.Valid() && win1h.Valid()
      modifies win1m, win5m, win1h, win1m.buckets, win5m.buckets, win1h.buckets
      ensures win1m.Valid() && win1m.Contents() == WindowModel.Update(old(win1m.Contents()), win1m.bucketSeconds, Delta(now, Bucket(dv, dt)))
      ensures win5m.Valid() && win5m.Contents() == WindowModel.Update(old(win5m.Contents()), win5m.bucketSeconds, Delta(now, Bucket(dv, dt)))
      ensures win1h.Valid() && win1h.Contents() == WindowModel.Update(old(win1h.Contents()), win1h.bucketSeconds, Delta(now, Bucket(dv, dt)))
    {
      hide WindowModel.Update, Ring;
      win1m.Update(now, dv, dt);
      win5m.Update(now, dv, dt);
      win1h.Update(now, dv, dt);
    }

    /** The volume part of update_aggregates for one ticker entry. */
    method OnTicker(now: int, newVol: real, newTrades: nat)
      requires Valid()
      modifies Parts()
      ensures Valid() && samples == old(samples) + [Sample(now, newVol, newTrades)]
    {
      hide Run, Credits, WindowModel.Update, Ring;
      ghost var next := Sample(now, newVol, newTrades);
      ghost var all := samples + [next];
      CreditsPush(samples, next, 1);
      CreditsPush(samples, next, 5);
      CreditsPush(samples, next, 60);
      if !primed {
        lastQuoteVolume, lastTradeCount, primed := newVol, newTrades, true;
      } else {
        var dv := if newVol < lastQuoteVolume then newVol else newVol - lastQuoteVolume;
        var dt := if newTrades < lastTradeCount then newTrades as real else (newTrades - lastTradeCount) as real;
        lastQuoteVolume, lastTradeCount := newVol, newTrades;
        assert Delta(now, Bucket(dv, dt)) == Credit(samples[|samples| - 1], next);
        Feed(now, dv, dt);
      }
      samples := all;
    }

    /** trades_1m, trades_5m and trades_1h, likewise. */
    method Trades() returns (t1m: real, t5m: real, t1h: real)
      requires Valid()
      ensures Plausible(samples) ==> t1m <= t5m <= t1h
      ensures Plausible(samples) ==>
        var trace := Credits(samples);
        var origin := Origin(trace);
        && t1m == Recent(trace, origin, 1, Current(trace, origin, 1) - 60).trades
        && t5m == Recent(trace, origin, 5, Current(trace, origin, 5) - 60).trades
        && t1h == Recent(trace, origin, 60, Current(trace, origin, 60) - 60).trades
    {
      hide Run, Recent, Sum, Credits, Origin, Current;
      var v;
      v, t1m := win1m.Sums();
      v, t5m := win5m.Sums();
      v, t1h := win1h.Sums();
      ghost var trace := Credits(samples);
      if Plausible(samples) {
        CreditsPlausible(samples);
        WindowIsSlidingSum(trace, 60, 1);
        WindowIsSlidingSum(trace, 60, 5);
        WindowIsSlidingSum(trace, 60, 60);
        WiderHoldsMore(trace, 1, 5);
        WiderHoldsMore(trace, 5, 60);
      }
    }

    /** vol_1m, vol_5m and vol_1h: sliding sums of the credits, each contained in the next. */
    method Volumes() returns (v1m: real, v5m: real, v1h: real)
      requires Valid()
      ensures Plausible(samples) ==> v1m <= v5m <= v1h
      ensures Plausible(samples) ==>
        var trace := Credits(samples);
        var origin := Origin(trace);
        && v1m == Recent(trace, origin, 1, Current(trace, origin, 1) - 60).vol
        && v5m == Recent(trace, origin, 5, Current(trace, origin, 5) - 60).vol
        && v1h == Recent(trace, origin, 60, Current(trace, origin, 60) - 60).vol
    {
      hide Run, Recent, Sum, Credits, Origin, Current;
      var t;
      v1m, t := win1m.Sums();
      v5m, t := win5m.Sums();
      v1h, t := win1h.Sums();
      ghost var trace := Credits(samples);
      if Plausible(samples) {
        CreditsPlausible(samples);
        WindowIsSlidingSum(trace, 60, 1);
        WindowIsSlidingSum(trace, 60, 5);
        WindowIsSlidingSum(trace, 60, 60);
        WiderHoldsMore(trace, 1, 5);
        WiderHoldsMore(trace, 5, 60);
      }
    }
  }
}
