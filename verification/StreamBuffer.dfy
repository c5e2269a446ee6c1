/** The cross-thread stream buffer as a step relation: a producer thread that pushes and wakes, a
    closing call, an executor that runs posted timer cancels, the forwarder coroutine, a bounded
    channel and its reader. Steps are the points between which threads can interleave; the executor
    has one thread, so a posted cancel runs only while the forwarder is suspended. */
module StreamBuffer {

  /** Where `push` stands: behind the test of the closed flag, or behind the enqueue with the wake still to post. */
  datatype Producer<T> = Idle | Checked(v: T) | Pushed

  /** Where `close` stands: the flag is stored and the wake still to post. */
  datatype Closer = NotClosing | Stored

  /** Where `async_forward` stands. `final` tells the drain behind a set closed flag from the first one. A forwarder
      whose wait or write has completed is `Resuming` until the executor gets round to it. */
  datatype Forwarder<T> =
    | NotStarted
    | Waiting
    | Resuming(final: bool)
    | Drain(final: bool)
    | Write(item: T, final: bool)
    | Check
    | Rearm
    | Closing
    | Done

  datatype Config = Config(queueCap: nat, channelCap: nat, sameThread: bool)

  /** `accepted`, `delivered` and `missed` record history: pushes that returned true, items handed to the
      reader, and cancels that ran before the forwarder waited for the first time. */
  datatype State<T> = State(
    queue: seq<T>, closed: bool, channel: seq<T>, open: bool, cancels: nat,
    producer: Producer<T>, closer: Closer, forwarder: Forwarder<T>, drained: nat,
    accepted: seq<T>, delivered: seq<T>, missed: nat)

  datatype Step<T> =
    | PushCheck(v: T) | PushEnqueue | PushWake
    | CloseStore | CloseWake
    | RunCancel | Start | Resume
    | Pop | WriteItem | Handoff | LoadClosed | Reset | CloseChannel
    | ReadBatch(max: nat)

  /** New calls from outside; every other step finishes work already begun. */
  predicate External<T>(a: Step<T>) { a.PushCheck? || a.CloseStore? }

  function Fresh<T>(f: Forwarder<T>): State<T> {
    State([], false, [], true, 0, Idle, NotClosing, f, 0, [], [], 0)
  }

  ghost predicate Init<T>(s: State<T>) {
    s == Fresh(s.forwarder) && (s.forwarder.Waiting? || s.forwarder.NotStarted?)
  }

  predicate Suspended<T>(f: Forwarder<T>) { f.NotStarted? || f.Waiting? || f.Resuming? || f.Write? || f.Done? }

  /** How many items async_read_batch takes from a channel that holds `available`; async_read and
      async_drain take one at a time. */
  function BatchSize(max: nat, available: nat, open: bool): (n: nat)
    requires available > 0
    ensures 0 < n <= available
  {
    if !open || max <= 1 then 1 else if max < available then max else available
  }

  predicate Enabled<T>(c: Config, s: State<T>, a: Step<T>) {
    match a
    case PushCheck(_) => s.producer.Idle? && (c.sameThread ==> s.closer.NotClosing?)
    case PushEnqueue => s.producer.Checked?
    case PushWake => s.producer.Pushed?
    case CloseStore => s.closer.NotClosing? && (c.sameThread ==> s.producer.Idle?)
    case CloseWake => s.closer.Stored?
    case RunCancel => s.cancels > 0 && Suspended(s.forwarder)
    case Start => s.forwarder.NotStarted?
    case Resume => s.forwarder.Resuming?
    case Pop => s.forwarder.Drain?
    case WriteItem => s.forwarder.Write? && |s.channel| < c.channelCap
    case Handoff => s.forwarder.Write? && s.channel == []
    case LoadClosed => s.forwarder.Check?
    case Reset => s.forwarder.Rearm?
    case CloseChannel => s.forwarder.Closing?
    case ReadBatch(_) => s.channel != []
  }

  function Apply<T>(c: Config, s: State<T>, a: Step<T>): State<T>
    requires Enabled(c, s, a)
  {
    match a
    case PushCheck(v) => if s.closed then s else s.(producer := Checked(v))
    case PushEnqueue =>
      if |s.queue| < c.queueCap then
        s.(queue := s.queue + [s.producer.v], accepted := s.accepted + [s.producer.v], producer := Pushed)
      else s.(producer := Idle)
    case PushWake => s.(cancels := s.cancels + 1, producer := Idle)
    case CloseStore => s.(closed := true, closer := Stored)
    case CloseWake => s.(cancels := s.cancels + 1, closer := NotClosing)
    case RunCancel =>
      var t := s.(cancels := s.cancels - 1);
      if s.forwarder.Waiting? then t.(forwarder := Resuming(false))
      else if s.forwarder.NotStarted? then t.(missed := s.missed + 1)
      else t
    case Start => s.(forwarder := Waiting)
    case Resume => s.(forwarder := Drain(s.forwarder.final))
    case Pop =>
      if s.queue != [] then s.(queue := s.queue[1..], forwarder := Write(s.queue[0], s.forwarder.final))
      else s.(forwarder := if s.forwarder.final then Closing else Check)
    case WriteItem => s.(channel := s.channel + [s.forwarder.item], forwarder := Resuming(s.forwarder.final))
    case Handoff =>
      s.(delivered := s.delivered + [s.forwarder.item], drained := s.drained + 1, forwarder := Resuming(s.forwarder.final))
    case LoadClosed => s.(forwarder := if s.closed then Drain(true) else Rearm)
    case Reset => s.(forwarder := Waiting)
    case CloseChannel => s.(open := false, forwarder := Done)
    case ReadBatch(max) =>
      var n := BatchSize(max, |s.channel|, s.open);
      s.(channel := s.channel[n..], delivered := s.delivered + s.channel[..n], drained := s.drained + n)
  }

  /** A run: every state follows from the one before by the step between them. */
  ghost predicate IsRun<T>(c: Config, states: seq<State<T>>, steps: seq<Step<T>>) {
    && |states| == |steps| + 1
    && forall i :: 0 <= i < |steps| ==> Enabled(c, states[i], steps[i]) && states[i + 1] == Apply(c, states[i], steps[i])
  }

  function InHand<T>(f: Forwarder<T>): seq<T> { if f.Write? then [f.item] else [] }

  // ---- what every step keeps ----

  /** Nothing is lost, duplicated or reordered. */
  ghost predicate Fifo<T>(s: State<T>) {
    && s.accepted == s.delivered + s.channel + InHand(s.forwarder) + s.queue
    && s.drained == |s.delivered|
  }

  /** The forwarder sleeps, or is on its way to sleep without looking at the queue again. */
  predicate Asleep<T>(f: Forwarder<T>) { f.NotStarted? || f.Waiting? || f.Rearm? }

  /** Whatever a sleeping forwarder has to see, a wake is under way for it. */
  ghost predicate WakePending<T>(s: State<T>) {
    && ((Asleep(s.forwarder) || s.forwarder.Check?) && s.queue != [] ==> s.cancels > 0 || s.producer.Pushed?)
    && (Asleep(s.forwarder) && s.closed ==> s.cancels > 0 || s.closer.Stored?)
  }

  /** How far closing has come. */
  ghost predicate CloseOrder<T>(c: Config, s: State<T>) {
    && (s.open <==> !s.forwarder.Done?)
    && (s.forwarder.Closing? || s.forwarder.Done? || ((s.forwarder.Drain? || s.forwarder.Write? || s.forwarder.Resuming?) && s.forwarder.final)
        ==> s.closed)
    && (c.sameThread && s.closed ==> s.producer.Idle?)
    && (c.sameThread && (s.forwarder.Closing? || s.forwarder.Done?) ==> s.queue == [])
  }

  ghost predicate Inv<T>(c: Config, s: State<T>) {
    Fifo(s) && (s.missed == 0 ==> WakePending(s)) && CloseOrder(c, s)
  }

  lemma {:induction false} InitInv<T>(c: Config, s: State<T>)
    requires Init(s)
    ensures Inv(c, s)
  {
  }

  lemma {:induction false} FifoEnqueue<T>(c: Config, s: State<T>)
    requires Enabled(c, s, PushEnqueue) && Fifo(s)
    ensures Fifo(Apply(c, s, PushEnqueue))
  {
    var front, v := s.delivered + s.channel + InHand(s.forwarder), [s.producer.v];
    assert (front + s.queue) + v == front + (s.queue + v);
  }

  lemma {:induction false} FifoPop<T>(c: Config, s: State<T>)
    requires Enabled(c, s, Pop) && Fifo(s) && s.queue != []
    ensures Fifo(Apply(c, s, Pop))
  {
    var front := s.delivered + s.channel;
    assert front + [] + s.queue == front + [s.queue[0]] + s.queue[1..];
  }

  lemma {:induction false} FifoWrite<T>(c: Config, s: State<T>)
    requires Enabled(c, s, WriteItem) && Fifo(s)
    ensures Fifo(Apply(c, s, WriteItem))
  {
    var item := [s.forwarder.item];
    assert s.delivered + s.channel + item == s.delivered + (s.channel + item) + [];
  }

  lemma {:induction false} FifoHandoff<T>(c: Config, s: State<T>)
    requires Enabled(c, s, Handoff) && Fifo(s)
    ensures Fifo(Apply(c, s, Handoff))
  {
    var item := [s.forwarder.item];
    assert s.delivered + [] + item == (s.delivered + item) + [] + [];
  }

  lemma {:induction false} FifoRead<T>(c: Config, s: State<T>, max: nat)
    requires Enabled(c, s, ReadBatch(max)) && Fifo(s)
    ensures Fifo(Apply(c, s, ReadBatch(max)))
  {
    var n := BatchSize(max, |s.channel|, s.open);
    assert s.delivered + s.channel == (s.delivered + s.channel[..n]) + s.channel[n..];
  }

  lemma {:induction false} StepFifo<T>(c: Config, s: State<T>, a: Step<T>)
    requires Enabled(c, s, a) && Fifo(s)
    ensures Fifo(Apply(c, s, a))
  {
    match a {
      case ReadBatch(max) => FifoRead(c, s, max);
      case Pop => if s.queue != [] { FifoPop(c, s); }
      case PushEnqueue => FifoEnqueue(c, s);
      case WriteItem => FifoWrite(c, s);
      case Handoff => FifoHandoff(c, s);
      case _ =>
    }
  }

  lemma {:induction false} StepWake<T>(c: Config, s: State<T>, a: Step<T>)
    requires Enabled(c, s, a) && (s.missed == 0 ==> WakePending(s))
    ensures Apply(c, s, a).missed == 0 ==> WakePending(Apply(c, s, a))
  {
  }

  lemma {:induction false} StepClose<T>(c: Config, s: State<T>, a: Step<T>)
    requires Enabled(c, s, a) && CloseOrder(c, s)
    ensures CloseOrder(c, Apply(c, s, a))
  {
  }

  lemma {:induction false} StepInv<T>(c: Config, s: State<T>, a: Step<T>)
    requires Enabled(c, s, a) && Inv(c, s)
    ensures Inv(c, Apply(c, s, a))
  {
    hide Enabled, Apply, Fifo, WakePending, CloseOrder;
    StepFifo(c, s, a);
    StepWake(c, s, a);
    StepClose(c, s, a);
  }

  lemma {:induction false} RunInv<T>(c: Config, states: seq<State<T>>, steps: seq<Step<T>>, i: nat)
    requires IsRun(c, states, steps) && Init(states[0]) && i < |states|
    ensures Inv(c, states[i])
  {
    if i == 0 {
      InitInv(c, states[0]);
    } else {
      RunInv(c, states, steps, i - 1);
      StepInv(c, states[i - 1], steps[i - 1]);
    }
  }

  // ---- whole runs ----

  /** No lost wake-up: in every reachable state, as long as no cancel ran before the first wait, a
      forwarder that waits while the queue is nonempty or the buffer is closed will be woken: a cancel is
      posted, or the thread that pushed or closed is about to post one. */
  lemma {:induction false} NoLostWakeUp<T>(c: Config, states: seq<State<T>>, steps: seq<Step<T>>, i: nat)
    requires IsRun(c, states, steps) && Init(states[0]) && i < |states| && states[i].missed == 0
    ensures states[i].forwarder.Waiting? && (states[i].queue != [] || states[i].closed) ==>
              states[i].cancels > 0 || states[i].producer.Pushed? || states[i].closer.Stored?
  {
    RunInv(c, states, steps, i);
  }

  /** Started in the waiting state, the forwarder never misses a cancel. */
  lemma {:induction false} NothingMissed<T>(c: Config, states: seq<State<T>>, steps: seq<Step<T>>, i: nat)
    requires IsRun(c, states, steps) && Init(states[0]) && states[0].forwarder.Waiting? && i < |states|
    ensures states[i].missed == 0 && !states[i].forwarder.NotStarted?
  {
    if i > 0 { NothingMissed(c, states, steps, i - 1); }
  }

  /** Lossless and in order: what push accepted is what was delivered, what the channel holds, what the
      forwarder holds and what is queued, in this order. */
  lemma {:induction false} LosslessFifo<T>(c: Config, states: seq<State<T>>, steps: seq<Step<T>>, i: nat)
    requires IsRun(c, states, steps) && Init(states[0]) && i < |states|
    ensures states[i].accepted == states[i].delivered + states[i].channel + InHand(states[i].forwarder) + states[i].queue
    ensures states[i].drained == |states[i].delivered|
  {
    RunInv(c, states, steps, i);
  }

  /** When the producer's thread also closes, everything accepted is in the channel or delivered by the time
      the channel is closed. */
  lemma {:induction false} ClosedChannelIsComplete<T>(c: Config, states: seq<State<T>>, steps: seq<Step<T>>, i: nat)
    requires IsRun(c, states, steps) && Init(states[0]) && i < |states|
    requires c.sameThread && !states[i].open
    ensures states[i].accepted == states[i].delivered + states[i].channel && states[i].producer.Idle?
  {
    RunInv(c, states, steps, i);
    var s := states[i];
    assert s.delivered + s.channel + [] + [] == s.delivered + s.channel;
  }

  // ---- progress ----

  /** An upper bound for the number of steps that finish the work already begun. */
  function Pending<T>(s: State<T>): nat {
    6 * s.cancels + 4 * |s.queue| + |s.channel|
    + (match s.producer case Idle => 0 case Checked(_) => 12 case Pushed => 7)
    + (if s.closer.Stored? then 7 else 0)
    + (match s.forwarder
       case NotStarted => 1
       case Waiting => 0
       case Resuming(final) => if final then 3 else 5
       case Drain(final) => if final then 2 else 4
       case Write(_, final) => if final then 5 else 7
       case Check => 3
       case Rearm => 1
       case Closing => 1
       case Done => 0)
  }

  /** Every step that is not a new call brings the work nearer to its end. */
  lemma {:induction false} StepProgress<T>(c: Config, s: State<T>, a: Step<T>)
    requires Enabled(c, s, a) && !External(a)
    ensures Pending(Apply(c, s, a)) < Pending(s)
  {
  }

  /** So without new calls the buffer comes to rest, whatever the schedule. */
  lemma {:induction false} ComesToRest<T>(c: Config, states: seq<State<T>>, steps: seq<Step<T>>)
    requires IsRun(c, states, steps) && forall i :: 0 <= i < |steps| ==> !External(steps[i])
    ensures |steps| + Pending(states[|steps|]) <= Pending(states[0])
  {
    if steps != [] {
      var n := |steps| - 1;
      assert IsRun(c, states[..n + 1], steps[..n]);
      ComesToRest(c, states[..n + 1], steps[..n]);
      StepProgress(c, states[n], steps[n]);
    }
  }

  /** No step is possible but a new call. */
  ghost predicate AtRest<T(!new)>(c: Config, s: State<T>) {
    forall a: Step<T> :: Enabled(c, s, a) ==> External(a)
  }

  /** A buffer at rest has delivered everything it accepted but what a foreign close stranded; its channel is closed
      exactly if the buffer is. */
  lemma {:induction false} RestIsComplete<T(!new)>(c: Config, states: seq<State<T>>, steps: seq<Step<T>>, i: nat)
    requires IsRun(c, states, steps) && Init(states[0]) && states[0].forwarder.Waiting? && i < |states|
    requires AtRest(c, states[i])
    ensures states[i].accepted == states[i].delivered + states[i].queue
    ensures states[i].queue != [] ==> !c.sameThread && !states[i].open
    ensures states[i].closed <==> !states[i].open
  {
    RunInv(c, states, steps, i);
    NothingMissed(c, states, steps, i);
    var s := states[i];
    RestShape(c, s);
    assert s.delivered + [] + [] + s.queue == s.delivered + s.queue;
  }

  lemma {:induction false} RestShape<T(!new)>(c: Config, s: State<T>)
    requires AtRest(c, s) && Inv(c, s) && s.missed == 0
    ensures s.channel == [] && s.cancels == 0 && s.producer.Idle? && s.closer.NotClosing?
    ensures (s.forwarder.Waiting? && !s.closed && s.queue == []) || s.forwarder.Done?
    ensures InHand(s.forwarder) == [] && (c.sameThread ==> s.queue == [])
  {
    assert !Enabled(c, s, ReadBatch(1)) && !Enabled(c, s, Handoff);
    assert !Enabled(c, s, PushEnqueue) && !Enabled(c, s, PushWake) && !Enabled(c, s, CloseWake);
    assert !Enabled(c, s, Start) && !Enabled(c, s, Resume) && !Enabled(c, s, Pop) && !Enabled(c, s, LoadClosed) && !Enabled(c, s, Reset) && !Enabled(c, s, CloseChannel);
    assert !Enabled(c, s, RunCancel);
  }

  // ---- where the promises end ----

  /** Result of a list of steps, if all of them are possible. */
  ghost predicate Leads<T>(c: Config, s: State<T>, steps: seq<Step<T>>, t: State<T>)
    decreases |steps|
  {
    if steps == [] then s == t else Enabled(c, s, steps[0]) && Leads(c, Apply(c, s, steps[0]), steps[1..], t)
  }

  lemma {:induction false} LeadsBy<T>(c: Config, s: State<T>, a: Step<T>, rest: seq<Step<T>>, t: State<T>)
    requires Enabled(c, s, a) && Leads(c, Apply(c, s, a), rest, t)
    ensures [a] + rest != [] && Leads(c, s, [a] + rest, t)
  {
    assert ([a] + rest)[1..] == rest;
  }

  lemma {:induction false} LeadsNowhere<T>(c: Config, s: State<T>)
    ensures Leads(c, s, [], s)
  {
  }

  lemma {:induction false} LeadsInv<T>(c: Config, s: State<T>, steps: seq<Step<T>>, t: State<T>)
    requires Leads(c, s, steps, t) && Inv(c, s) && |s.queue| <= c.queueCap
    ensures Inv(c, t) && |t.queue| <= c.queueCap
    decreases |steps|
  {
    if steps != [] {
      StepInv(c, s, steps[0]);
      hide Inv;
      LeadsInv(c, Apply(c, s, steps[0]), steps[1..], t);
    }
  }

  lemma {:induction false} LeadsStarted<T>(c: Config, s: State<T>, steps: seq<Step<T>>, t: State<T>)
    requires Leads(c, s, steps, t) && !s.forwarder.NotStarted? && s.missed == 0
    ensures !t.forwarder.NotStarted? && t.missed == 0
    decreases |steps|
  {
    if steps != [] { LeadsStarted(c, Apply(c, s, steps[0]), steps[1..], t); }
  }

  /** The forwarder sleeps over an item or a close, and nobody will wake it. */
  ghost predicate Stranded<T>(s: State<T>) {
    && s.forwarder.Waiting? && (s.queue != [] || s.closed)
    && s.cancels == 0 && !s.producer.Pushed? && s.closer.NotClosing?
  }

  ghost predicate CanStrand<T(!new)>(c: Config, s: State<T>) {
    exists steps: seq<Step<T>>, t: State<T> :: Leads(c, s, steps, t) && Stranded(t)
  }

  /** The same with an accepted item left in the queue. */
  ghost predicate CanStrandItem<T(!new)>(c: Config, s: State<T>) {
    exists steps: seq<Step<T>>, t: State<T> :: Leads(c, s, steps, t) && Stranded(t) && t.queue != []
  }

  /** A cancel that runs before the forwarder waits for the first time is lost, and the item stays behind. */
  lemma {:induction false} EarlyWakeIsLost<T>(c: Config, v: T)
    requires c.queueCap > 0
    ensures var s := Fresh<T>(NotStarted);
      var t := s.(queue := [v], accepted := [v], forwarder := Waiting, missed := 1);
      Leads(c, s, [PushCheck(v), PushEnqueue, PushWake, RunCancel, Start], t) && Stranded(t)
  {
    var s := Fresh<T>(NotStarted);
    var t := s.(queue := [v], accepted := [v], forwarder := Waiting, missed := 1);
    var s1 := Apply(c, s, PushCheck(v));
    var s2 := Apply(c, s1, PushEnqueue);
    var s3 := Apply(c, s2, PushWake);
    var s4 := Apply(c, s3, RunCancel);
    assert Apply(c, s4, Start) == t;
    hide Leads;
    LeadsNowhere(c, t);
    LeadsBy(c, s4, Start, [], t);
    LeadsBy(c, s3, RunCancel, [Start], t);
    LeadsBy(c, s2, PushWake, [RunCancel, Start], t);
    LeadsBy(c, s1, PushEnqueue, [PushWake, RunCancel, Start], t);
    LeadsBy(c, s, PushCheck(v), [PushEnqueue, PushWake, RunCancel, Start], t);
    hide Enabled, Apply;
    assert [PushCheck(v)] + [PushEnqueue, PushWake, RunCancel, Start] == [PushCheck(v), PushEnqueue, PushWake, RunCancel, Start];
  }

  /** So is the wake of a close. */
  lemma {:induction false} EarlyCloseIsLost<T>(c: Config)
    ensures var s := Fresh<T>(NotStarted);
      var t := s.(closed := true, forwarder := Waiting, missed := 1);
      Leads(c, s, [CloseStore, CloseWake, RunCancel, Start], t) && Stranded(t)
  {
    var s := Fresh<T>(NotStarted);
    var t := s.(closed := true, forwarder := Waiting, missed := 1);
    var s1 := Apply(c, s, CloseStore);
    var s2 := Apply(c, s1, CloseWake);
    var s3 := Apply(c, s2, RunCancel);
    assert Apply(c, s3, Start) == t;
    hide Leads;
    LeadsNowhere(c, t);
    LeadsBy(c, s3, Start, [], t);
    LeadsBy(c, s2, RunCancel, [Start], t);
    LeadsBy(c, s1, CloseWake, [RunCancel, Start], t);
    var steps: seq<Step<T>> := [CloseWake, RunCancel, Start];
    LeadsBy(c, s, CloseStore, steps, t);
    hide Enabled, Apply;
    assert [CloseStore] + steps == [CloseStore, CloseWake, RunCancel, Start];
  }

  /** A wake-up can be lost exactly if the buffer is used before its forwarder waits for the first time. */
  lemma {:induction false} StrandIff<T(!new)>(c: Config, f: Forwarder<T>, v: T)
    requires f.Waiting? || f.NotStarted?
    ensures CanStrand(c, Fresh(f)) <==> f.NotStarted?
    ensures CanStrandItem(c, Fresh(f)) <==> f.NotStarted? && c.queueCap > 0
  {
    hide Leads;
    var s := Fresh(f);
    InitInv(c, s);
    if f.NotStarted? {
      EarlyCloseIsLost<T>(c);
      if c.queueCap > 0 { EarlyWakeIsLost(c, v); }
    }
    forall steps: seq<Step<T>>, t | Leads(c, s, steps, t)
      ensures |t.queue| <= c.queueCap && (f.Waiting? ==> !Stranded(t))
    {
      LeadsInv(c, s, steps, t);
      if f.Waiting? { LeadsStarted(c, s, steps, t); }
    }
  }

  /** An accepted item that nobody will forward any more. */
  ghost predicate Lost<T>(s: State<T>) { s.forwarder.Done? && s.queue != [] }

  ghost predicate CanLose<T(!new)>(c: Config, s: State<T>) {
    exists steps: seq<Step<T>>, t: State<T> :: Leads(c, s, steps, t) && Lost(t)
  }

  /** When another thread closes in the middle of a push, an accepted item can stay behind a closed channel. */
  lemma {:induction false} ForeignCloseLosesItem<T>(c: Config, v: T)
    requires !c.sameThread && c.queueCap > 0
    ensures var s := Fresh<T>(Waiting);
      var t := s.(queue := [v], accepted := [v], closed := true, open := false, forwarder := Done, producer := Pushed);
      var steps := [PushCheck(v), CloseStore, CloseWake, RunCancel, Resume, Pop, LoadClosed, Pop, CloseChannel, PushEnqueue];
      Leads(c, s, steps, t) && Lost(t)
  {
    hide Leads;
    var s := Fresh<T>(Waiting);
    var t := s.(queue := [v], accepted := [v], closed := true, open := false, forwarder := Done, producer := Pushed);
    var s1 := Apply(c, s, PushCheck(v));
    var s2 := Apply(c, s1, CloseStore);
    var s3 := Apply(c, s2, CloseWake);
    var s4 := Apply(c, s3, RunCancel);
    assert s4 == s.(producer := Checked(v), closed := true, forwarder := Resuming(false));
    ForeignCloseEnds(c, v);
    var rest := [Resume, Pop, LoadClosed, Pop, CloseChannel, PushEnqueue];
    LeadsBy(c, s3, RunCancel, rest, t);
    LeadsBy(c, s2, CloseWake, [RunCancel] + rest, t);
    LeadsBy(c, s1, CloseStore, [CloseWake] + ([RunCancel] + rest), t);
    LeadsBy(c, s, PushCheck(v), [CloseStore] + ([CloseWake] + ([RunCancel] + rest)), t);
    hide Enabled, Apply;
    assert [PushCheck(v)] + ([CloseStore] + ([CloseWake] + ([RunCancel] + rest)))
        == [PushCheck(v), CloseStore, CloseWake, RunCancel, Resume, Pop, LoadClosed, Pop, CloseChannel, PushEnqueue];
  }

  /** The second half: the forwarder drains twice and closes before the enqueue. */
  lemma {:induction false} ForeignCloseEnds<T>(c: Config, v: T)
    requires c.queueCap > 0
    ensures var s := Fresh<T>(Resuming(false)).(producer := Checked(v), closed := true);
      var t := Fresh<T>(Done).(queue := [v], accepted := [v], closed := true, open := false, producer := Pushed);
      Leads(c, s, [Resume, Pop, LoadClosed, Pop, CloseChannel, PushEnqueue], t)
  {
    var s := Fresh<T>(Resuming(false)).(producer := Checked(v), closed := true);
    var t := Fresh<T>(Done).(queue := [v], accepted := [v], closed := true, open := false, producer := Pushed);
    hide Leads;
    var s0 := Apply(c, s, Resume);
    var s1 := Apply(c, s0, Pop);
    assert s1 == Fresh<T>(Check).(producer := Checked(v), closed := true);
    ForeignCloseLast(c, v);
    LeadsBy(c, s0, Pop, [LoadClosed, Pop, CloseChannel, PushEnqueue], t);
    var steps: seq<Step<T>> := [Pop, LoadClosed, Pop, CloseChannel, PushEnqueue];
    LeadsBy(c, s, Resume, steps, t);
    hide Enabled, Apply;
    assert [Resume] + steps == [Resume, Pop, LoadClosed, Pop, CloseChannel, PushEnqueue];
  }

  lemma {:induction false} ForeignCloseLast<T>(c: Config, v: T)
    requires c.queueCap > 0
    ensures var s := Fresh<T>(Check).(producer := Checked(v), closed := true);
      var t := Fresh<T>(Done).(queue := [v], accepted := [v], closed := true, open := false, producer := Pushed);
      Leads(c, s, [LoadClosed, Pop, CloseChannel, PushEnqueue], t)
  {
    hide Leads;
    var s := Fresh<T>(Check).(producer := Checked(v), closed := true);
    var t := Fresh<T>(Done).(queue := [v], accepted := [v], closed := true, open := false, producer := Pushed);
    var s2 := Apply(c, s, LoadClosed);
    var s3 := Apply(c, s2, Pop);
    var s4 := Apply(c, s3, CloseChannel);
    assert Apply(c, s4, PushEnqueue) == t;
    LeadsNowhere(c, t);
    LeadsBy(c, s4, PushEnqueue, [], t);
    var last: seq<Step<T>> := [PushEnqueue];
    assert last + [] == last;
    LeadsBy(c, s3, CloseChannel, last, t);
    var close: seq<Step<T>> := [CloseChannel, PushEnqueue];
    assert [CloseChannel] + last == close;
    LeadsBy(c, s2, Pop, close, t);
    var steps: seq<Step<T>> := [Pop, CloseChannel, PushEnqueue];
    assert [Pop] + close == steps;
    LeadsBy(c, s, LoadClosed, steps, t);
    assert [LoadClosed] + steps == [LoadClosed, Pop, CloseChannel, PushEnqueue];
  }

  /** From the start, an accepted item can be lost exactly if another thread than the producer's may close (and
      items can be accepted at all). */
  lemma {:induction false} LossIffForeign<T(!new)>(c: Config, f: Forwarder<T>, v: T)
    requires f.Waiting? || f.NotStarted?
    ensures CanLose(c, Fresh(f)) <==> !c.sameThread && c.queueCap > 0
  {
    hide Leads;
    var s := Fresh(f);
    InitInv(c, s);
    if c.sameThread || c.queueCap == 0 {
      forall steps: seq<Step<T>>, t | Leads(c, s, steps, t) ensures !Lost(t) {
        LeadsInv(c, s, steps, t);
      }
    } else {
      ForeignCloseLosesItem(c, v);
      var run := [PushCheck(v), CloseStore, CloseWake, RunCancel, Resume, Pop, LoadClosed, Pop, CloseChannel, PushEnqueue];
      var w := Fresh<T>(Waiting);
      var t := w.(queue := [v], accepted := [v], closed := true, open := false, forwarder := Done, producer := Pushed);
      if f.NotStarted? { LeadsBy(c, s, Start, run, t); }
    }
  }

  lemma {:induction false} StaysEmpty<T>(c: Config, s: State<T>, steps: seq<Step<T>>, t: State<T>)
    requires Leads(c, s, steps, t) && s.closed && s.queue == [] && !s.producer.Checked?
    requires s.forwarder.Closing? || s.forwarder.Done?
    ensures !Lost(t)
    decreases |steps|
  {
    if steps != [] { StaysEmpty(c, Apply(c, s, steps[0]), steps[1..], t); }
  }

  /** At the moment the final drain is over, an item can be lost exactly if one has been queued behind it or a push
      has passed its test of the closed flag and not yet enqueued. */
  lemma {:induction false} LossIff<T(!new)>(c: Config, s: State<T>)
    requires s.forwarder.Closing? && s.closed && c.queueCap > 0
    ensures CanLose(c, s) <==> s.queue != [] || s.producer.Checked?
  {
    if s.queue == [] && !s.producer.Checked? {
      forall steps: seq<Step<T>>, t | Leads(c, s, steps, t) ensures !Lost(t) {
        StaysEmpty(c, s, steps, t);
      }
    } else {
      var done := Apply(c, s, CloseChannel);
      if s.queue != [] {
        LeadsNowhere(c, done);
        LeadsBy(c, s, CloseChannel, [], done);
        assert Lost(done);
      } else {
        var t := Apply(c, done, PushEnqueue);
        LeadsNowhere(c, t);
        LeadsBy(c, done, PushEnqueue, [], t);
        LeadsBy(c, s, CloseChannel, [PushEnqueue], t);
        assert Lost(t);
      }
    }
  }

  // ---- acceptance and room ----

  /** Neither the queue nor the channel ever holds more than its capacity. */
  lemma {:induction false} Bounded<T>(c: Config, states: seq<State<T>>, steps: seq<Step<T>>, i: nat)
    requires IsRun(c, states, steps) && Init(states[0]) && i < |states|
    ensures |states[i].queue| <= c.queueCap && |states[i].channel| <= c.channelCap
  {
    if i > 0 {
      Bounded(c, states, steps, i - 1);
      StepBounded(c, states[i - 1], steps[i - 1]);
      hide Apply, Enabled;
    }
  }

  lemma {:induction false} StepBounded<T>(c: Config, s: State<T>, a: Step<T>)
    requires Enabled(c, s, a) && |s.queue| <= c.queueCap && |s.channel| <= c.channelCap
    ensures |Apply(c, s, a).queue| <= c.queueCap && |Apply(c, s, a).channel| <= c.channelCap
  {
  }

  /** The number of accepted items that the forwarder has not taken yet. */
  function Untaken<T>(s: State<T>): int { |s.accepted| - |s.delivered| - |s.channel| - |InHand(s.forwarder)| }

  /** In every run, a push that has passed its test is accepted unless exactly `queueCap` accepted items have not been
      taken; a push that meets a closed buffer changes nothing; and nothing else accepts items. */
  lemma {:induction false} PushOutcome<T>(c: Config, states: seq<State<T>>, steps: seq<Step<T>>, i: nat)
    requires IsRun(c, states, steps) && Init(states[0]) && i < |steps|
    ensures var s, t := states[i], states[i + 1];
      && 0 <= Untaken(s) <= c.queueCap
      && (steps[i].PushEnqueue? && Untaken(s) < c.queueCap ==> t.accepted == s.accepted + [s.producer.v] && t.producer.Pushed?)
      && (steps[i].PushEnqueue? && Untaken(s) == c.queueCap ==> t.accepted == s.accepted && t.producer.Idle?)
      && (steps[i].PushCheck? ==> if s.closed then t == s else t == s.(producer := Checked(steps[i].v)))
      && (!steps[i].PushEnqueue? ==> t.accepted == s.accepted)
  {
    Bounded(c, states, steps, i);
    LosslessFifo(c, states, steps, i);
  }

  /** Once the buffer is closed and no push is under way, nothing is accepted any more. */
  lemma {:induction false} ClosedRefuses<T>(c: Config, states: seq<State<T>>, steps: seq<Step<T>>, i: nat, j: nat)
    requires IsRun(c, states, steps) && i <= j < |states| && states[i].closed && !states[i].producer.Checked?
    ensures states[j].closed && !states[j].producer.Checked? && states[j].accepted == states[i].accepted
  {
    if i < j { ClosedRefuses(c, states, steps, i, j - 1); }
  }

  /** Push and close are wait-free: on their own threads they run to their end without any step of the others, also while
      the other call is under way; a push that meets a closed buffer changes nothing. */
  lemma {:induction false} WaitFree<T>(c: Config, s: State<T>, v: T)
    ensures s.producer.Idle? && s.closed && (c.sameThread ==> s.closer.NotClosing?) ==> Leads(c, s, [PushCheck(v)], s)
    ensures s.producer.Idle? && !s.closed && (c.sameThread ==> s.closer.NotClosing?) ==>
      Leads(c, s, if |s.queue| < c.queueCap then [PushCheck(v), PushEnqueue, PushWake] else [PushCheck(v), PushEnqueue],
        if |s.queue| < c.queueCap then s.(queue := s.queue + [v], accepted := s.accepted + [v], cancels := s.cancels + 1) else s)
    ensures s.closer.NotClosing? && (c.sameThread ==> s.producer.Idle?) ==>
      Leads(c, s, [CloseStore, CloseWake], s.(closed := true, cancels := s.cancels + 1))
  {
    hide Leads;
    if s.producer.Idle? && (c.sameThread ==> s.closer.NotClosing?) {
      PushRuns(c, s, v);
    }
    if s.closer.NotClosing? && (c.sameThread ==> s.producer.Idle?) {
      var t := s.(closed := true, cancels := s.cancels + 1);
      LeadsNowhere(c, t);
      var s1 := Apply(c, s, CloseStore);
      assert Apply(c, s1, CloseWake) == t;
      LeadsBy(c, s1, CloseWake, [], t);
      var rest: seq<Step<T>> := [CloseWake];
      assert rest + [] == rest;
      LeadsBy(c, s, CloseStore, rest, t);
      assert [CloseStore] + rest == [CloseStore, CloseWake];
    }
  }

  lemma {:induction false} PushRuns<T>(c: Config, s: State<T>, v: T)
    requires s.producer.Idle? && (c.sameThread ==> s.closer.NotClosing?)
    ensures s.closed ==> Leads(c, s, [PushCheck(v)], s)
    ensures !s.closed ==>
      Leads(c, s, if |s.queue| < c.queueCap then [PushCheck(v), PushEnqueue, PushWake] else [PushCheck(v), PushEnqueue],
        if |s.queue| < c.queueCap then s.(queue := s.queue + [v], accepted := s.accepted + [v], cancels := s.cancels + 1) else s)
  {
    hide Leads;
    var s1 := Apply(c, s, PushCheck(v));
    if s.closed {
      LeadsNowhere(c, s);
      LeadsBy(c, s, PushCheck(v), [], s);
      assert [PushCheck(v)] + [] == [PushCheck(v)];
    } else {
      var s2 := Apply(c, s1, PushEnqueue);
      if |s.queue| < c.queueCap {
        var s3 := Apply(c, s2, PushWake);
        LeadsNowhere(c, s3);
        LeadsBy(c, s2, PushWake, [], s3);
        var wake: seq<Step<T>> := [PushWake];
        assert wake + [] == wake;
        LeadsBy(c, s1, PushEnqueue, wake, s3);
        assert [PushEnqueue] + wake == [PushEnqueue, PushWake];
        LeadsBy(c, s, PushCheck(v), [PushEnqueue, PushWake], s3);
        assert [PushCheck(v)] + [PushEnqueue, PushWake] == [PushCheck(v), PushEnqueue, PushWake];
      } else {
        LeadsNowhere(c, s);
        LeadsBy(c, s1, PushEnqueue, [], s);
        var enqueue: seq<Step<T>> := [PushEnqueue];
        assert enqueue + [] == enqueue;
        LeadsBy(c, s, PushCheck(v), enqueue, s);
        assert [PushCheck(v)] + [PushEnqueue] == [PushCheck(v), PushEnqueue];
      }
    }
  }

  /** The steps of pushing one item after the other when `n` are queued. */
  function Burst<T>(c: Config, n: nat, vs: seq<T>): seq<Step<T>>
    decreases |vs|
  {
    if vs == [] then []
    else if n < c.queueCap then [PushCheck(vs[0])] + ([PushEnqueue] + ([PushWake] + Burst(c, n + 1, vs[1..])))
    else [PushCheck(vs[0])] + ([PushEnqueue] + Burst(c, n, vs[1..]))
  }

  /** The items of a burst for which there is room. */
  function Taken<T>(c: Config, n: nat, vs: seq<T>): (r: seq<T>)
    requires n <= c.queueCap
  {
    if |vs| <= c.queueCap - n then vs else vs[..c.queueCap - n]
  }

  function AfterBurst<T>(s: State<T>, taken: seq<T>): State<T> {
    s.(queue := s.queue + taken, accepted := s.accepted + taken, cancels := s.cancels + |taken|)
  }

  /** A burst of pushes into an open buffer is accepted up to the capacity of the queue, in order. */
  lemma {:induction false} BurstAccepted<T>(c: Config, s: State<T>, vs: seq<T>)
    requires s.producer.Idle? && !s.closed && s.closer.NotClosing? && |s.queue| <= c.queueCap
    ensures Leads(c, s, Burst(c, |s.queue|, vs), AfterBurst(s, Taken(c, |s.queue|, vs)))
    decreases |vs|
  {
    hide Leads;
    var n := |s.queue|;
    var t := AfterBurst(s, Taken(c, n, vs));
    if vs == [] {
      assert s.queue + [] == s.queue && s.accepted + [] == s.accepted;
      LeadsNowhere(c, s);
    } else {
      var s1 := Apply(c, s, PushCheck(vs[0]));
      var s2 := Apply(c, s1, PushEnqueue);
      if n < c.queueCap {
        var s3 := Apply(c, s2, PushWake);
        BurstAccepted(c, s3, vs[1..]);
        TakenStep(c, n, vs);
        assert s3 == AfterBurst(s, [vs[0]]);
        AfterBoth(s, [vs[0]], Taken(c, n + 1, vs[1..]));
        var rest := Burst(c, n + 1, vs[1..]);
        LeadsBy(c, s2, PushWake, rest, t);
        LeadsBy(c, s1, PushEnqueue, [PushWake] + rest, t);
        LeadsBy(c, s, PushCheck(vs[0]), [PushEnqueue] + ([PushWake] + rest), t);
      } else {
        BurstAccepted(c, s2, vs[1..]);
        assert s2 == s;
        var rest := Burst(c, n, vs[1..]);
        LeadsBy(c, s1, PushEnqueue, rest, t);
        LeadsBy(c, s, PushCheck(vs[0]), [PushEnqueue] + rest, t);
      }
    }
  }

  lemma {:induction false} TakenStep<T>(c: Config, n: nat, vs: seq<T>)
    requires n < c.queueCap && vs != []
    ensures Taken(c, n, vs) == [vs[0]] + Taken(c, n + 1, vs[1..])
  {
  }

  lemma {:induction false} AfterBoth<T>(s: State<T>, a: seq<T>, b: seq<T>)
    ensures AfterBurst(AfterBurst(s, a), b) == AfterBurst(s, a + b)
  {
    assert (s.queue + a) + b == s.queue + (a + b) && (s.accepted + a) + b == s.accepted + (a + b);
  }

  function Fill<T>(n: nat): seq<Step<T>> {
    if n == 0 then [] else [Pop] + ([WriteItem] + ([Resume] + Fill(n - 1)))
  }

  /** A draining forwarder can move items into the channel for as long as there is room, without any reader. */
  lemma {:induction false} FillsChannel<T>(c: Config, s: State<T>, n: nat)
    requires s.forwarder.Drain? && n <= |s.queue| && |s.channel| + n <= c.channelCap
    ensures Leads(c, s, Fill(n), s.(queue := s.queue[n..], channel := s.channel + s.queue[..n]))
    decreases n
  {
    hide Leads;
    var t := s.(queue := s.queue[n..], channel := s.channel + s.queue[..n]);
    if n == 0 {
      assert s.queue[0..] == s.queue && s.channel + s.queue[..0] == s.channel;
      LeadsNowhere(c, s);
    } else {
      var s1 := Apply(c, s, Pop);
      var s2 := Apply(c, s1, WriteItem);
      var s3 := Apply(c, s2, Resume);
      FillsChannel(c, s3, n - 1);
      assert s3.queue == s.queue[1..] && s3.queue[n - 1..] == s.queue[n..];
      assert (s.channel + [s.queue[0]]) + s.queue[1..][..n - 1] == s.channel + s.queue[..n];
      LeadsBy(c, s2, Resume, Fill(n - 1), t);
      LeadsBy(c, s1, WriteItem, [Resume] + Fill(n - 1), t);
      LeadsBy(c, s, Pop, [WriteItem] + ([Resume] + Fill(n - 1)), t);
    }
  }

  // ---- the batch loop ----

  /** async_read_batch from the first successful read on. */
  method ReadBatchLoop<T>(channel: seq<T>, open: bool, max: nat) returns (batch: seq<T>, rest: seq<T>)
    requires channel != []
    ensures batch == channel[..BatchSize(max, |channel|, open)] && rest == channel[BatchSize(max, |channel|, open)..]
    ensures batch + rest == channel && batch != [] && (max > 0 ==> |batch| <= max)
    ensures open && max > 0 ==> |batch| == max || rest == []
    ensures !open || max == 0 ==> |batch| == 1
  {
    batch, rest := [channel[0]], channel[1..];
    while |batch| < max && open && rest != []
      invariant 1 <= |batch| <= |channel| && batch == channel[..|batch|] && rest == channel[|batch|..]
      invariant |batch| > 1 ==> open && |batch| <= max
      decreases |rest|
    {
      batch, rest := batch + [rest[0]], rest[1..];
    }
  }
}
