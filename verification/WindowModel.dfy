/** A rolling window as a function of the whole trace of updates, and what it has to do with a plain
    sliding sum. Volumes are reals, times nanoseconds. */
module WindowModel {
  import opened Arithmetic

  const NANOS: int := 1_000_000_000

  datatype Bucket = Bucket(vol: real, trades: real)

  const EMPTY := Bucket(0.0, 0.0)

  function Plus(a: Bucket, b: Bucket): Bucket { Bucket(a.vol + b.vol, a.trades + b.trades) }

  function Blanks(n: nat): (s: seq<Bucket>)
    ensures |s| == n && forall i :: 0 <= i < n ==> s[i] == EMPTY
  {
    seq(n, _ => EMPTY)
  }

  function Sum(s: seq<Bucket>): Bucket {
    if s == [] then EMPTY else Plus(s[0], Sum(s[1..]))
  }

  lemma {:induction false} SumAppend(a: seq<Bucket>, b: seq<Bucket>)
    ensures Sum(a + b) == Plus(Sum(a), Sum(b))
  {
    if a == [] {
      assert a + b == b;
    } else {
      assert (a + b)[1..] == a[1..] + b;
      SumAppend(a[1..], b);
    }
  }

  // ---- tf_window on values ----

  /** The buckets from the oldest to the head, and `head_time_`, where 0 means not started. */
  datatype Win = Win(slots: seq<Bucket>, headTime: int)

  /** The window moved on by `k` buckets. */
  function Slide(slots: seq<Bucket>, k: nat): (r: seq<Bucket>)
    requires k <= |slots|
    ensures |r| == |slots|
  {
    slots[k..] + Blanks(k)
  }

  function Min(a: int, b: int): int { if a < b then a else b }

  function Steps(w: Win, size: int, now: int): int
    requires size > 0
  {
    if w.headTime == 0 || now <= w.headTime then 0 else ((now - w.headTime) / NANOS) / size
  }

  function Advance(w: Win, size: int, now: int): (r: Win)
    requires size > 0
    ensures |r.slots| == |w.slots|
  {
    var steps := Steps(w, size, now);
    if w.headTime == 0 then w.(headTime := now)
    else if steps <= 0 then w
    else Win(Slide(w.slots, Min(steps, |w.slots|)), w.headTime + steps * size * NANOS)
  }

  function AddToHead(slots: seq<Bucket>, d: Bucket): (r: seq<Bucket>)
    requires slots != []
    ensures |r| == |slots|
  {
    slots[|slots| - 1 := Plus(slots[|slots| - 1], d)]
  }

  datatype Delta = Delta(time: int, amount: Bucket)

  function Update(w: Win, size: int, d: Delta): (r: Win)
    requires size > 0 && w.slots != []
    ensures |r.slots| == |w.slots|
  {
    var a := Advance(w, size, d.time);
    a.(slots := AddToHead(a.slots, d.amount))
  }

  /** The window after a trace of updates. */
  function Run(trace: seq<Delta>, n: nat, size: int): (w: Win)
    requires size > 0 && n > 0
    ensures |w.slots| == n
  {
    if trace == [] then Win(Blanks(n), 0) else Update(Run(trace[..|trace| - 1], n, size), size, trace[|trace| - 1])
  }

  // ---- the plain sliding sum ----

  /** Times are not negative and never go back. */
  ghost predicate Ordered(trace: seq<Delta>) {
    && (forall i :: 0 <= i < |trace| ==> trace[i].time >= 0)
    && (forall i, j :: 0 <= i < j < |trace| ==> trace[i].time <= trace[j].time)
  }

  /** The first time that is not 0; updates at time 0 leave the window unstarted. */
  function Origin(trace: seq<Delta>): int {
    if trace == [] then 0 else if trace[0].time != 0 then trace[0].time else Origin(trace[1..])
  }

  /** Bucket index of a time, counted from the origin. */
  function SlotOf(t: int, origin: int, size: int): int
    requires size > 0
  {
    if t <= origin then 0 else (t - origin) / (size * NANOS)
  }

  /** Total of the updates in bucket `k`. */
  function SlotSum(trace: seq<Delta>, origin: int, size: int, k: int): Bucket
    requires size > 0
  {
    if trace == [] then EMPTY else
    var d := trace[|trace| - 1];
    var rest := SlotSum(trace[..|trace| - 1], origin, size, k);
    if SlotOf(d.time, origin, size) == k then Plus(rest, d.amount) else rest
  }

  /** Total of the updates in buckets behind `lo`. */
  function Recent(trace: seq<Delta>, origin: int, size: int, lo: int): Bucket
    requires size > 0
  {
    if trace == [] then EMPTY else
    var d := trace[|trace| - 1];
    var rest := Recent(trace[..|trace| - 1], origin, size, lo);
    if SlotOf(d.time, origin, size) > lo then Plus(rest, d.amount) else rest
  }

  function Current(trace: seq<Delta>, origin: int, size: int): int
    requires size > 0
  {
    if trace == [] then 0 else SlotOf(trace[|trace| - 1].time, origin, size)
  }

  ghost predicate AllZero(trace: seq<Delta>) { forall i :: 0 <= i < |trace| ==> trace[i].time == 0 }

  // ---- arithmetic of bucket indices ----

  /** Whole seconds first, then whole buckets, is the same as whole buckets at once. */
  lemma {:induction false} SecondsThenBuckets(x: int, size: int)
    requires x >= 0 && size > 0
    ensures (x / NANOS) / size == x / (size * NANOS)
  {
    var s := x / NANOS;
    var q, r := s / size, s % size;
    assert x == q * (size * NANOS) + (r * NANOS + x % NANOS);
    DivUnique(x, size * NANOS, q, r * NANOS + x % NANOS);
  }

  /** Counting on from the start of bucket `c`. */
  lemma {:induction false} SlotFrom(origin: int, size: int, c: int, now: int)
    requires size > 0 && c >= 0 && now >= origin + c * (size * NANOS)
    ensures SlotOf(now, origin, size) == c + ((now - (origin + c * (size * NANOS))) / NANOS) / size
  {
    var m := size * NANOS;
    var x := now - (origin + c * m);
    SecondsThenBuckets(x, size);
    assert c * m >= 0;
    DivUnique(now - origin, m, c + x / m, x % m) by { assert (c + x / m) * m == c * m + (x / m) * m; }
  }

  lemma {:induction false} SlotMonotone(t: int, u: int, origin: int, size: int)
    requires t <= u && size > 0
    ensures 0 <= SlotOf(t, origin, size) <= SlotOf(u, origin, size)
    ensures t >= origin ==> origin + SlotOf(t, origin, size) * (size * NANOS) <= t
  {
    if t > origin {
      DivMonotone(t - origin, u - origin, size * NANOS);
    }
  }

  // ---- the window holds the buckets of the trace ----

  /** The bucket that slot `i` of `n` stands for when `current` is in the last one. */
  function BucketAt(current: int, n: nat, i: nat): int { current - (n - 1 - i) }

  /** Every slot of the window is the total of its bucket. */
  ghost predicate Holds(trace: seq<Delta>, w: Win, origin: int, size: int)
    requires size > 0
  {
    forall i: nat :: i < |w.slots| ==> w.slots[i] == SlotSum(trace, origin, size, BucketAt(Current(trace, origin, size), |w.slots|, i))
  }

  lemma {:induction false} NothingAhead(trace: seq<Delta>, origin: int, size: int, k: int)
    requires size > 0 && forall i :: 0 <= i < |trace| ==> SlotOf(trace[i].time, origin, size) < k
    ensures SlotSum(trace, origin, size, k) == EMPTY
  {
    if trace != [] { NothingAhead(trace[..|trace| - 1], origin, size, k); }
  }

  /** All updates lie in buckets up to the current one. */
  lemma {:induction false} CurrentIsLast(trace: seq<Delta>, origin: int, size: int)
    requires size > 0 && Ordered(trace)
    ensures forall i :: 0 <= i < |trace| ==> 0 <= SlotOf(trace[i].time, origin, size) <= Current(trace, origin, size)
  {
    forall i | 0 <= i < |trace| ensures 0 <= SlotOf(trace[i].time, origin, size) <= Current(trace, origin, size) {
      SlotMonotone(trace[i].time, trace[|trace| - 1].time, origin, size);
    }
  }

  /** Moving the window on by the number of buckets the current one has moved. */
  lemma {:induction false} SlideHolds(trace: seq<Delta>, w: Win, origin: int, size: int, steps: nat, i: nat)
    requires size > 0 && Ordered(trace) && Holds(trace, w, origin, size) && i < |w.slots|
    ensures Slide(w.slots, Min(steps, |w.slots|))[i]
         == SlotSum(trace, origin, size, BucketAt(Current(trace, origin, size) + steps, |w.slots|, i))
  {
    hide SlotSum, Current, SlotOf;
    var n := |w.slots|;
    if i + steps >= n {
      CurrentIsLast(trace, origin, size);
      NothingAhead(trace, origin, size, BucketAt(Current(trace, origin, size) + steps, n, i));
    } else {
      assert Slide(w.slots, steps)[i] == w.slots[i + steps];
    }
  }

  /** `head_time_` is 0 until the first update at another time, and then the start of the current bucket. */
  ghost predicate HeadTime(trace: seq<Delta>, w: Win, origin: int, size: int)
    requires size > 0
  {
    w.headTime == if AllZero(trace) then 0 else origin + Current(trace, origin, size) * (size * NANOS)
  }

  lemma {:induction false} OriginOfPrefix(trace: seq<Delta>)
    requires trace != []
    ensures var p := trace[..|trace| - 1];
      Origin(trace) == if AllZero(p) then trace[|trace| - 1].time else Origin(p)
    ensures AllZero(trace) <==> Origin(trace) == 0
  {
    var p := trace[..|trace| - 1];
    if |trace| == 1 {
      assert trace[1..] == [];
    } else {
      assert trace[1..][..|trace| - 2] == p[1..];
      assert trace[1..][|trace| - 2] == trace[|trace| - 1];
      OriginOfPrefix(trace[1..]);
      assert AllZero(p) <==> p[0].time == 0 && AllZero(p[1..]) by {
        assert forall i :: 1 <= i < |p| ==> p[i] == p[1..][i - 1];
      }
      assert AllZero(trace) <==> trace[0].time == 0 && AllZero(trace[1..]) by {
        assert forall i :: 1 <= i < |trace| ==> trace[i] == trace[1..][i - 1];
      }
    }
  }

  lemma {:induction false} OrderedPrefix(trace: seq<Delta>)
    requires trace != [] && Ordered(trace)
    ensures Ordered(trace[..|trace| - 1])
    ensures forall i :: 0 <= i < |trace| - 1 ==> trace[i].time <= trace[|trace| - 1].time
  {
  }

  /** How far the head moves is how far the current bucket moves. */
  lemma {:induction false} StepsAreSlots(p: seq<Delta>, w: Win, origin: int, size: int, now: int)
    requires size > 0 && Ordered(p) && !AllZero(p) && Origin(p) == origin && HeadTime(p, w, origin, size)
    requires now >= p[|p| - 1].time
    ensures w.headTime > 0
    ensures Steps(w, size, now) >= 0 && SlotOf(now, origin, size) == Current(p, origin, size) + Steps(w, size, now)
  {
    var last := p[|p| - 1].time;
    OriginBounds(p);
    SlotMonotone(last, now, origin, size);
    var c := Current(p, origin, size);
    assert c * (size * NANOS) >= 0;
    SlotFrom(origin, size, c, now);
  }

  lemma {:induction false} OriginBounds(p: seq<Delta>)
    requires Ordered(p) && !AllZero(p)
    ensures 0 < Origin(p) <= p[|p| - 1].time
  {
    if p[0].time == 0 {
      assert forall i :: 1 <= i < |p| ==> p[i] == p[1..][i - 1];
      OriginBounds(p[1..]);
    }
  }

  /** In a trace whose updates are all at time 0 the origin does not matter. */
  lemma {:induction false} ZeroTrace(p: seq<Delta>, origin: int, origin': int, size: int, k: int)
    requires size > 0 && AllZero(p) && origin >= 0 && origin' >= 0
    ensures SlotSum(p, origin, size, k) == SlotSum(p, origin', size, k)
    ensures Current(p, origin, size) == 0
  {
    if p != [] { ZeroTrace(p[..|p| - 1], origin, origin', size, k); }
  }

  /** One more update. */
  lemma {:induction false} UpdateHolds(trace: seq<Delta>, w: Win, n: nat, size: int)
    requires trace != [] && Ordered(trace) && size > 0 && n > 0 && |w.slots| == n
    requires var p := trace[..|trace| - 1];
      Holds(p, w, Origin(trace), size) && HeadTime(p, w, Origin(trace), size)
    ensures var r := Update(w, size, trace[|trace| - 1]);
      Holds(trace, r, Origin(trace), size) && HeadTime(trace, r, Origin(trace), size)
  {
    var p, d, origin := trace[..|trace| - 1], trace[|trace| - 1], Origin(trace);
    var c, steps := Current(p, origin, size), Steps(w, size, d.time);
    HeadMoves(trace, w, size);
    hide Origin, Current, HeadTime, SlotOf, Steps;
    var a := Advance(w, size, d.time);
    forall i: nat | i < n ensures a.slots[i] == SlotSum(p, origin, size, BucketAt(c + steps, n, i)) {
      if steps > 0 { SlideHolds(p, w, origin, size, steps, i); }
    }
    SumStep(trace, origin, size);
  }

  lemma {:induction false} SumStep(trace: seq<Delta>, origin: int, size: int)
    requires trace != [] && size > 0
    ensures forall k {:trigger SlotSum(trace, origin, size, k)} ::
      var rest := SlotSum(trace[..|trace| - 1], origin, size, k);
      SlotSum(trace, origin, size, k) == if k == Current(trace, origin, size) then Plus(rest, trace[|trace| - 1].amount) else rest
  {
  }

  /** The head and the current bucket move together. */
  lemma {:induction false} HeadMoves(trace: seq<Delta>, w: Win, size: int)
    requires trace != [] && Ordered(trace) && size > 0
    requires HeadTime(trace[..|trace| - 1], w, Origin(trace), size)
    ensures var d := trace[|trace| - 1];
      var steps := Steps(w, size, d.time);
      && steps >= 0 && (w.headTime == 0 ==> steps == 0)
      && Current(trace, Origin(trace), size) == Current(trace[..|trace| - 1], Origin(trace), size) + steps
      && HeadTime(trace, Advance(w, size, d.time), Origin(trace), size)
  {
    var p, d, origin := trace[..|trace| - 1], trace[|trace| - 1], Origin(trace);
    var c, steps := Current(p, origin, size), Steps(w, size, d.time);
    OrderedPrefix(trace);
    OriginOfPrefix(trace);
    if AllZero(p) {
      ZeroTrace(p, origin, origin, size, 0);
    } else {
      StepsAreSlots(p, w, origin, size, d.time);
      StepsInTime(c, steps, size);
    }
    hide SlotOf, Origin;
  }

  lemma {:induction false} StepsInTime(c: int, steps: int, size: int)
    ensures (c + steps) * (size * NANOS) == c * (size * NANOS) + steps * size * NANOS
  {
  }

  /** The window after any ordered trace holds, bucket by bucket, the totals of the trace. */
  lemma {:induction false} RunHolds(trace: seq<Delta>, n: nat, size: int)
    requires Ordered(trace) && size > 0 && n > 0
    ensures Holds(trace, Run(trace, n, size), Origin(trace), size)
    ensures HeadTime(trace, Run(trace, n, size), Origin(trace), size)
  {
    if trace != [] {
      var p := trace[..|trace| - 1];
      var w := Run(p, n, size);
      OrderedPrefix(trace);
      RunHolds(p, n, size);
      OriginOfPrefix(trace);
      if AllZero(p) { SameWhenZero(p, w, Origin(p), Origin(trace), size); }
      UpdateHolds(trace, w, n, size);
    }
  }

  lemma {:induction false} ZeroOrigin(p: seq<Delta>)
    requires AllZero(p)
    ensures Origin(p) == 0
  {
    if p != [] {
      assert forall i :: 1 <= i < |p| ==> p[i] == p[1..][i - 1];
      ZeroOrigin(p[1..]);
    }
  }

  lemma {:induction false} SameWhenZero(p: seq<Delta>, w: Win, origin: int, origin': int, size: int)
    requires size > 0 && AllZero(p) && origin == Origin(p) && origin' >= 0
    requires Holds(p, w, origin, size) && HeadTime(p, w, origin, size)
    ensures Holds(p, w, origin', size) && HeadTime(p, w, origin', size)
  {
    ZeroOrigin(p);
    forall i: nat | i < |w.slots| ensures w.slots[i] == SlotSum(p, origin', size, BucketAt(Current(p, origin', size), |w.slots|, i)) {
      ZeroTrace(p, origin, origin', size, BucketAt(Current(p, origin, size), |w.slots|, i));
      ZeroTrace(p, origin', origin, size, 0);
    }
  }

  // ---- the total ----

  lemma {:induction false} RecentStep(trace: seq<Delta>, origin: int, size: int, lo: int)
    requires size > 0
    ensures Recent(trace, origin, size, lo - 1) == Plus(Recent(trace, origin, size, lo), SlotSum(trace, origin, size, lo))
  {
    if trace != [] { RecentStep(trace[..|trace| - 1], origin, size, lo); }
  }

  lemma {:induction false} NothingRecent(trace: seq<Delta>, origin: int, size: int, lo: int)
    requires size > 0 && forall i :: 0 <= i < |trace| ==> SlotOf(trace[i].time, origin, size) <= lo
    ensures Recent(trace, origin, size, lo) == EMPTY
  {
    if trace != [] { NothingRecent(trace[..|trace| - 1], origin, size, lo); }
  }

  /** The last `m` slots of the window add up to the updates of the last `m` buckets. */
  lemma {:induction false} SumOfLast(trace: seq<Delta>, w: Win, origin: int, size: int, m: nat)
    requires size > 0 && Ordered(trace) && Holds(trace, w, origin, size) && m <= |w.slots|
    ensures Sum(w.slots[|w.slots| - m..]) == Recent(trace, origin, size, Current(trace, origin, size) - m)
  {
    hide Recent, SlotSum, SlotOf, Current;
    var n, c := |w.slots|, Current(trace, origin, size);
    if m == 0 {
      CurrentIsLast(trace, origin, size);
      NothingRecent(trace, origin, size, c);
    } else {
      SumOfLast(trace, w, origin, size, m - 1);
      assert w.slots[n - m..][1..] == w.slots[n - (m - 1)..];
      assert w.slots[n - m] == SlotSum(trace, origin, size, BucketAt(c, n, n - m));
      RecentStep(trace, origin, size, c - (m - 1));
    }
  }

  /** Sliding-window refinement: the sum over all buckets is the sum of the updates whose bucket index is
      among the last `n`, however long the gaps between updates were. */
  lemma {:induction false} WindowIsSlidingSum(trace: seq<Delta>, n: nat, size: int)
    requires Ordered(trace) && size > 0 && n > 0
    ensures Sum(Run(trace, n, size).slots) == Recent(trace, Origin(trace), size, Current(trace, Origin(trace), size) - n)
  {
    hide Run, Recent, Sum, SlotSum, Current;
    var w := Run(trace, n, size);
    RunHolds(trace, n, size);
    SumOfLast(trace, w, Origin(trace), size, n);
    assert w.slots[0..] == w.slots;
  }

  // ---- nested windows ----

  ghost predicate NonNegative(trace: seq<Delta>) {
    forall i :: 0 <= i < |trace| ==> trace[i].amount.vol >= 0.0 && trace[i].amount.trades >= 0.0
  }

  /** If one selection of updates contains the other, so do the sums. */
  lemma {:induction false} RecentContains(trace: seq<Delta>, origin: int, size: int, lo: int, size': int, lo': int)
    requires size > 0 && size' > 0 && NonNegative(trace)
    requires forall i :: 0 <= i < |trace| && SlotOf(trace[i].time, origin, size) > lo ==> SlotOf(trace[i].time, origin, size') > lo'
    ensures Recent(trace, origin, size, lo).vol <= Recent(trace, origin, size', lo').vol
    ensures Recent(trace, origin, size, lo).trades <= Recent(trace, origin, size', lo').trades
  {
    if trace != [] {
      RecentContains(trace[..|trace| - 1], origin, size, lo, size', lo');
      var d := trace[|trace| - 1];
      assert SlotOf(d.time, origin, size) > lo ==> SlotOf(d.time, origin, size') > lo';
    }
  }

  /** A time in the last 60 buckets of `size` seconds is in the last 60 buckets of `size'` seconds, for the
      pairs of sizes the aggregates use. */
  lemma {:induction false} SlotInWider(t: int, last: int, origin: int, size: int, size': int)
    requires (size == 1 && size' == 5) || (size == 5 && size' == 60)
    requires t <= last && SlotOf(t, origin, size) > SlotOf(last, origin, size) - 60
    ensures SlotOf(t, origin, size') > SlotOf(last, origin, size') - 60
  {
  }

  lemma {:induction false} WiderHoldsMore(trace: seq<Delta>, size: int, size': int)
    requires Ordered(trace) && NonNegative(trace)
    requires (size == 1 && size' == 5) || (size == 5 && size' == 60)
    ensures Sum(Run(trace, 60, size).slots).vol <= Sum(Run(trace, 60, size').slots).vol
    ensures Sum(Run(trace, 60, size).slots).trades <= Sum(Run(trace, 60, size').slots).trades
  {
    hide Run, Recent, Sum, Origin, SlotOf;
    var origin := Origin(trace);
    WindowIsSlidingSum(trace, 60, size);
    WindowIsSlidingSum(trace, 60, size');
    if trace != [] {
      var last := trace[|trace| - 1].time;
      forall i | 0 <= i < |trace| && SlotOf(trace[i].time, origin, size) > Current(trace, origin, size) - 60
        ensures SlotOf(trace[i].time, origin, size') > Current(trace, origin, size') - 60
      {
        SlotInWider(trace[i].time, last, origin, size, size');
      }
      RecentContains(trace, origin, size, Current(trace, origin, size) - 60, size', Current(trace, origin, size') - 60);
    } else {
      NoSums(origin, size, size');
    }
  }

  lemma {:induction false} NoSums(origin: int, size: int, size': int)
    requires size > 0 && size' > 0
    ensures Recent([], origin, size, -60) == Recent([], origin, size', -60)
  {
  }

  /** What the window covers, in nanoseconds: every update younger than all but one of its buckets counts, and none that is
      as old as all of them. */
  lemma {:induction false} WindowAge(trace: seq<Delta>, n: nat, size: int, i: nat)
    requires Ordered(trace) && size > 0 && n > 0 && i < |trace| && trace[i].time >= Origin(trace)
    ensures var age := trace[|trace| - 1].time - trace[i].time;
      var counts := SlotOf(trace[i].time, Origin(trace), size) > Current(trace, Origin(trace), size) - n;
      && (age <= (n - 1) * (size * 1_000_000_000) ==> counts)
      && (counts ==> age < n * (size * 1_000_000_000))
  {
    hide Ordered, Origin;
    var m, t, u := size * NANOS, trace[i].time - Origin(trace), trace[|trace| - 1].time - Origin(trace);
    LastIsLatest(trace, i);
    SlotOfLater(trace[i].time, Origin(trace), size);
    SlotOfLater(trace[|trace| - 1].time, Origin(trace), size);
    SlotDistance(t, u, m, n);
  }

  lemma {:induction false} LastIsLatest(trace: seq<Delta>, i: nat)
    requires Ordered(trace) && i < |trace|
    ensures trace[i].time <= trace[|trace| - 1].time
  {
  }

  lemma {:induction false} SlotOfLater(t: int, origin: int, size: int)
    requires size > 0 && t >= origin
    ensures SlotOf(t, origin, size) == (t - origin) / (size * NANOS)
  {
    if t == origin { DivUnique(0, size * NANOS, 0, 0); }
  }

  lemma {:induction false} SlotDistance(t: int, u: int, m: int, n: nat)
    requires 0 <= t <= u && m > 0 && n > 0
    ensures u - t <= (n - 1) * m ==> t / m > u / m - n
    ensures t / m > u / m - n ==> u - t < n * m
  {
    var a, b := t / m, u / m;
    var r, q := t % m, u % m;
    assert t == a * m + r && u == b * m + q;
    DivMonotone(t, u, m);
    assert u - t == (b - a) * m + q - r by { assert (b - a) * m == b * m - a * m; }
    if a <= b - n {
      MulMonotone(n, b - a, m);
      assert (n - 1) * m == n * m - m;
    } else {
      MulMonotone(b - a, n - 1, m);
      assert (n - 1) * m == n * m - m;
    }
  }
}
