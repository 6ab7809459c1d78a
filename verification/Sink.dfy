/**
 The telemetry sink: producers offer events to a bounded channel and never wait; one drain
 goroutine gathers batches and hands them to the writers by kind.
 */
module Sink {
  import opened Sequences

  datatype Kind = JobShapes | Rejections | Capacities

  datatype Envelope = Envelope(kind: Kind, row: string)

  datatype Config = Config(bufferSize: int, batchSize: int)

  function WithDefaults(c: Config): (r: Config)
    ensures r.bufferSize > 0 && r.batchSize > 0
    ensures c.bufferSize > 0 && c.batchSize > 0 ==> r == c
    ensures (c.bufferSize <= 0 ==> r.bufferSize == 4096) && (c.batchSize <= 0 ==> r.batchSize == 128)
    ensures (c.bufferSize > 0 ==> r.bufferSize == c.bufferSize) && (c.batchSize > 0 ==> r.batchSize == c.batchSize)
  {
    Config(if c.bufferSize <= 0 then 4096 else c.bufferSize, if c.batchSize <= 0 then 128 else c.batchSize)
  }

  predicate Valid(c: Config) {
    c.bufferSize > 0 && c.batchSize > 0
  }

  // ---------------------------------------------------------------------------
  // Runs: producers, the drain goroutine, its ticker and a cancellation
  // ---------------------------------------------------------------------------

  datatype Phase = Running | Draining | Stopped

  /** `handed` are the batches given to the writers; `accepted` and `offered` are what producers sent so far. */
  datatype Sys = Sys(
    queue: seq<Envelope>, batch: seq<Envelope>, handed: seq<seq<Envelope>>, dropped: nat, phase: Phase,
    accepted: seq<Envelope>, offered: nat)

  datatype Step = Offer(e: Envelope) | Receive | Tick | Cancel | Finish

  const START: Sys := Sys([], [], [], 0, Running, [], 0)

  /** A send that would block drops the event instead. */
  function Enqueue(c: Config, s: Sys, e: Envelope): Sys {
    if |s.queue| < c.bufferSize
    then s.(queue := s.queue + [e], accepted := s.accepted + [e], offered := s.offered + 1)
    else s.(dropped := s.dropped + 1, offered := s.offered + 1)
  }

  function Flush(s: Sys): Sys {
    if s.batch == [] then s else s.(handed := s.handed + [s.batch], batch := [])
  }

  function TakeOne(c: Config, s: Sys): Sys
    requires s.queue != []
  {
    var s' := s.(queue := s.queue[1..], batch := s.batch + [s.queue[0]]);
    if |s'.batch| >= c.batchSize then Flush(s') else s'
  }

  function Next(c: Config, s: Sys, step: Step): Sys {
    match step
    case Offer(e) => Enqueue(c, s, e)
    case Receive => if !s.phase.Stopped? && s.queue != [] then TakeOne(c, s) else s
    case Tick => if s.phase.Running? then Flush(s) else s
    case Cancel => if s.phase.Running? then s.(phase := Draining) else s
    case Finish => if s.phase.Draining? && s.queue == [] then Flush(s).(phase := Stopped) else s
  }

  ghost predicate IsRun(c: Config, states: seq<Sys>, steps: seq<Step>) {
    && Valid(c) && |states| == |steps| + 1 && states[0] == START
    && (forall i {:trigger Marked(i)} | 0 <= i < |steps| :: states[i + 1] == Next(c, states[i], steps[i]))
  }

  lemma StepOf(c: Config, states: seq<Sys>, steps: seq<Step>, i: nat)
    requires IsRun(c, states, steps) && i < |steps|
    ensures states[i + 1] == Next(c, states[i], steps[i])
  {
    assert Marked(i);
  }

  // ---------------------------------------------------------------------------
  // Nothing lost, nothing reordered
  // ---------------------------------------------------------------------------

  /**
   Accepted events are, in order, the handed ones, then the batch, then the queue; every offer
   is accepted or dropped; neither the queue nor a batch outgrows its limit.
   */
  ghost predicate Inv(c: Config, s: Sys) {
    && s.accepted == Flatten(s.handed) + s.batch + s.queue
    && s.offered == |s.accepted| + s.dropped
    && |s.queue| <= c.bufferSize && |s.batch| < c.batchSize
    && (forall b | b in s.handed :: 0 < |b| <= c.batchSize)
    && (s.phase.Stopped? ==> s.batch == [])
  }

  lemma FlushKeeps(c: Config, s: Sys)
    requires Valid(c) && Inv(c, s.(batch := [], accepted := Flatten(s.handed) + s.queue, offered := |Flatten(s.handed) + s.queue| + s.dropped))
    requires |s.batch| <= c.batchSize && s.accepted == Flatten(s.handed) + s.batch + s.queue && s.offered == |s.accepted| + s.dropped
    ensures Inv(c, Flush(s)) && Flush(s).batch == []
  {
    if s.batch != [] {
      FlattenMore(s.handed, s.batch);
      assert Flatten(s.handed) + s.batch + [] + s.queue == s.accepted;
    }
  }

  lemma EnqueueKeepsInv(c: Config, s: Sys, e: Envelope)
    requires Inv(c, s)
    ensures Inv(c, Enqueue(c, s, e))
  {
    hide Flatten;
    assert Flatten(s.handed) + s.batch + (s.queue + [e]) == Flatten(s.handed) + s.batch + s.queue + [e];
  }

  lemma TakeOneKeepsInv(c: Config, s: Sys)
    requires Valid(c) && Inv(c, s) && !s.phase.Stopped? && s.queue != []
    ensures Inv(c, TakeOne(c, s))
  {
    hide Flatten, Flush;
    var s' := s.(queue := s.queue[1..], batch := s.batch + [s.queue[0]]);
    assert s.queue == [s.queue[0]] + s.queue[1..];
    assert Flatten(s'.handed) + s'.batch + s'.queue == s.accepted;
    FlushKeeps(c, s');
  }

  lemma StepKeepsInv(c: Config, s: Sys, step: Step)
    requires Valid(c) && Inv(c, s)
    ensures Inv(c, Next(c, s, step))
  {
    hide Flatten, Flush, TakeOne, Enqueue;
    match step
    case Offer(e) => EnqueueKeepsInv(c, s, e);
    case Receive =>
      if !s.phase.Stopped? && s.queue != [] {
        TakeOneKeepsInv(c, s);
      }
    case Tick => FlushKeeps(c, s);
    case Cancel =>
    case Finish => FlushKeeps(c, s);
  }

  /** The account of every run, at every point. */
  lemma {:induction false} RunKeepsInv(c: Config, states: seq<Sys>, steps: seq<Step>, n: nat)
    requires IsRun(c, states, steps) && n < |states|
    ensures Inv(c, states[n])
  {
    hide Next;
    if n > 0 {
      RunKeepsInv(c, states, steps, n - 1);
      StepOf(c, states, steps, n - 1);
      StepKeepsInv(c, states[n - 1], steps[n - 1]);
    }
  }

  /** Every offered event is dropped, queued, in the batch or handed over. */
  lemma OfferedIsAccountedFor(c: Config, states: seq<Sys>, steps: seq<Step>, n: nat)
    requires IsRun(c, states, steps) && n < |states|
    ensures var s := states[n];
            s.offered == s.dropped + |s.queue| + |s.batch| + |Flatten(s.handed)|
  {
    hide Next;
    RunKeepsInv(c, states, steps, n);
  }

  /** When the drain ends, everything accepted has been handed over. */
  lemma FinishHandsOverEverything(c: Config, states: seq<Sys>, steps: seq<Step>, i: nat)
    requires IsRun(c, states, steps) && i < |steps| && !states[i].phase.Stopped? && states[i + 1].phase.Stopped?
    ensures Flatten(states[i + 1].handed) == states[i + 1].accepted && states[i + 1].queue == []
  {
    RunKeepsInv(c, states, steps, i + 1);
    StepOf(c, states, steps, i);
  }

  lemma StoppedStep(c: Config, s: Sys, step: Step)
    requires s.phase.Stopped?
    ensures var s' := Next(c, s, step); s'.phase.Stopped? && s'.handed == s.handed && s.queue <= s'.queue
  {
  }

  /** After that nothing more is handed over: events accepted later stay in the queue. */
  lemma {:induction false} NothingHandedAfterStop(c: Config, states: seq<Sys>, steps: seq<Step>, m: nat, n: nat)
    requires IsRun(c, states, steps) && m <= n < |states| && states[m].phase.Stopped?
    ensures states[n].phase.Stopped? && states[n].handed == states[m].handed && states[m].queue <= states[n].queue
    ensures states[n].accepted == Flatten(states[m].handed) + states[n].queue
  {
    hide Next, Flatten;
    if m < n {
      NothingHandedAfterStop(c, states, steps, m, n - 1);
      StepOf(c, states, steps, n - 1);
      StoppedStep(c, states[n - 1], steps[n - 1]);
    }
    RunKeepsInv(c, states, steps, n);
  }

  /** An event is dropped exactly when the channel is full, and then nothing else changes. */
  lemma DroppedExactlyWhenFull(c: Config, states: seq<Sys>, steps: seq<Step>, i: nat)
    requires IsRun(c, states, steps) && i < |steps| && steps[i].Offer?
    ensures states[i + 1].dropped == states[i].dropped + if |states[i].queue| == c.bufferSize then 1 else 0
    ensures states[i + 1].queue == if |states[i].queue| == c.bufferSize then states[i].queue else states[i].queue + [steps[i].e]
    ensures states[i + 1].handed == states[i].handed && states[i + 1].batch == states[i].batch
  {
    RunKeepsInv(c, states, steps, i);
    StepOf(c, states, steps, i);
  }

  /** A batch is handed over when it is full, on a tick, or at the end of the drain, and is then all of what was gathered. */
  lemma HandedOverExactlyWhen(c: Config, states: seq<Sys>, steps: seq<Step>, i: nat)
    requires IsRun(c, states, steps) && i < |steps|
    ensures var s, s' := states[i], states[i + 1];
            var taken := if steps[i].Receive? && !s.phase.Stopped? && s.queue != [] then [s.queue[0]] else [];
            var gathered := s.batch + taken;
            var flushes := gathered != [] && (|gathered| == c.batchSize || (steps[i].Tick? && s.phase.Running?)
                                              || (steps[i].Finish? && s.phase.Draining? && s.queue == []));
            && s'.handed == (if flushes then s.handed + [gathered] else s.handed)
            && s'.batch == (if flushes then [] else gathered)
            && (taken != [] ==> s'.queue == s.queue[1..])
  {
    RunKeepsInv(c, states, steps, i);
    StepOf(c, states, steps, i);
    assert states[i].batch + [] == states[i].batch;
  }

  // ---------------------------------------------------------------------------
  // By kind
  // ---------------------------------------------------------------------------

  function Of(es: seq<Envelope>, kind: Kind): seq<Envelope> {
    if es == [] then []
    else Of(es[..|es| - 1], kind) + if es[|es| - 1].kind == kind then [es[|es| - 1]] else []
  }

  /** All rows one writer is given, batch after batch. */
  function Written(batches: seq<seq<Envelope>>, kind: Kind): seq<Envelope> {
    if batches == [] then [] else Written(batches[..|batches| - 1], kind) + Of(batches[|batches| - 1], kind)
  }

  lemma {:induction false} OfParts(a: seq<Envelope>, b: seq<Envelope>, kind: Kind)
    ensures Of(a + b, kind) == Of(a, kind) + Of(b, kind)
  {
    if b == [] {
      assert a + b == a;
    } else {
      var n := |b| - 1;
      assert (a + b)[..|a| + n] == a + b[..n] && (a + b)[|a| + n] == b[n];
      OfParts(a, b[..n], kind);
    }
  }

  /** The events of a kind are all of that kind, each as often as it occurs. */
  lemma {:induction false} OfCounts(es: seq<Envelope>, kind: Kind, e: Envelope)
    ensures multiset(Of(es, kind))[e] == if e.kind == kind then multiset(es)[e] else 0
  {
    if es != [] {
      var n := |es| - 1;
      assert es == es[..n] + [es[n]];
      OfCounts(es[..n], kind, e);
    }
  }

  lemma {:induction false} WrittenIsFiltered(batches: seq<seq<Envelope>>, kind: Kind)
    ensures Written(batches, kind) == Of(Flatten(batches), kind)
  {
    if batches != [] {
      var n := |batches| - 1;
      WrittenIsFiltered(batches[..n], kind);
      OfParts(Flatten(batches[..n]), batches[n], kind);
    }
  }

  /** Each writer sees its kind's accepted events in the order they were accepted, up to those still buffered. */
  lemma KindOrderKept(c: Config, states: seq<Sys>, steps: seq<Step>, n: nat, kind: Kind)
    requires IsRun(c, states, steps) && n < |states|
    ensures var s := states[n];
            Of(s.accepted, kind) == Written(s.handed, kind) + Of(s.batch, kind) + Of(s.queue, kind)
  {
    hide Next, Of, Written;
    RunKeepsInv(c, states, steps, n);
    var s := states[n];
    WrittenIsFiltered(s.handed, kind);
    OfParts(Flatten(s.handed) + s.batch, s.queue, kind);
    OfParts(Flatten(s.handed), s.batch, kind);
  }

  // ---------------------------------------------------------------------------
  // The sink
  // ---------------------------------------------------------------------------

  class TelemetrySink {
    var ch: seq<Envelope>
    var batch: seq<Envelope>
    var dropped: nat
    var stopped: bool
    /** What the three writers were given. */
    var shapes: seq<Envelope>
    var rejections: seq<Envelope>
    var capacities: seq<Envelope>
    const cfg: Config
    ghost var state: Sys

    ghost predicate Ok()
      reads this
    {
      && Valid(cfg) && Inv(cfg, state)
      && state.queue == ch && state.batch == batch && state.dropped == dropped && state.phase.Stopped? == stopped
      && shapes == Written(state.handed, JobShapes) && rejections == Written(state.handed, Rejections)
      && capacities == Written(state.handed, Capacities)
    }

    constructor (config: Config)
      ensures Ok() && state == START && cfg == WithDefaults(config)
    {
      cfg := WithDefaults(config);
      ch, batch, dropped, stopped := [], [], 0, false;
      shapes, rejections, capacities := [], [], [];
      state := START;
    }

    method Offered(e: Envelope)
      requires Ok()
      modifies this
      ensures Ok() && state == Next(cfg, old(state), Offer(e))
    {
      hide Written, Inv;
      StepKeepsInv(cfg, state, Offer(e));
      if |ch| < cfg.bufferSize {
        ch := ch + [e];
      } else {
        dropped := dropped + 1;
      }
      state := Next(cfg, state, Offer(e));
    }

    /** Groups by kind, keeping the order within a kind. */
    static method Group(batch: seq<Envelope>) returns (shapes: seq<Envelope>, rejections: seq<Envelope>, capacities: seq<Envelope>)
      ensures shapes == Of(batch, JobShapes) && rejections == Of(batch, Rejections) && capacities == Of(batch, Capacities)
    {
      shapes, rejections, capacities := [], [], [];
      for i := 0 to |batch|
        invariant shapes == Of(batch[..i], JobShapes) && rejections == Of(batch[..i], Rejections)
        invariant capacities == Of(batch[..i], Capacities)
      {
        assert batch[..i + 1][..i] == batch[..i];
        match batch[i].kind
        case JobShapes => shapes := shapes + [batch[i]];
        case Rejections => rejections := rejections + [batch[i]];
        case Capacities => capacities := capacities + [batch[i]];
      }
      assert batch[..|batch|] == batch;
    }

    /** Hands the batch over, a writer per kind; whether a write then fails changes nothing here. */
    method FlushBatch()
      modifies this`batch, this`shapes, this`rejections, this`capacities
      ensures batch == []
      ensures shapes == old(shapes) + Of(old(batch), JobShapes) && rejections == old(rejections) + Of(old(batch), Rejections)
      ensures capacities == old(capacities) + Of(old(batch), Capacities)
    {
      if |batch| == 0 {
        return;
      }
      var s, r, c := Group(batch);
      shapes, rejections, capacities := shapes + s, rejections + r, capacities + c;
      batch := [];
    }

    lemma WrittenMore(batches: seq<seq<Envelope>>, b: seq<Envelope>)
      ensures forall kind :: Written(batches + [b], kind) == Written(batches, kind) + Of(b, kind)
    {
      assert (batches + [b])[..|batches|] == batches;
    }

    /** Takes the oldest event and flushes a full batch. */
    method ReceiveOne()
      requires Ok() && !stopped && ch != []
      modifies this
      ensures Ok() && state == Next(cfg, old(state), Receive) && |ch| == |old(ch)| - 1 && !stopped
    {
      hide Written, Of, Inv;
      StepKeepsInv(cfg, state, Receive);
      var e := ch[0];
      ch, batch := ch[1..], batch + [e];
      WrittenMore(state.handed, batch);
      if |batch| >= cfg.batchSize {
        FlushBatch();
      }
      state := Next(cfg, state, Receive);
    }

    method OnTick()
      requires Ok() && state.phase.Running?
      modifies this
      ensures Ok() && state == Next(cfg, old(state), Tick)
    {
      hide Written, Inv;
      StepKeepsInv(cfg, state, Tick);
      WrittenMore(state.handed, batch);
      FlushBatch();
      state := Next(cfg, state, Tick);
    }

    method FinishDrain()
      requires Ok() && state.phase.Draining? && ch == []
      modifies this
      ensures Ok() && state == Next(cfg, old(state), Finish)
    {
      hide Written, Inv;
      StepKeepsInv(cfg, state, Finish);
      WrittenMore(state.handed, batch);
      FlushBatch();
      stopped := true;
      state := Next(cfg, state, Finish);
    }

    /** Cancellation: empties the channel, flushes, stops.  All that was accepted has then been handed over. */
    method DrainAndStop()
      requires Ok() && state.phase.Running?
      modifies this
      ensures Ok() && stopped && ch == [] && state.accepted == old(state.accepted) && dropped == old(dropped)
      ensures forall kind :: Of(state.accepted, kind) == Written(state.handed, kind)
    {
      hide Written, Of, Inv;
      StepKeepsInv(cfg, state, Cancel);
      state := Next(cfg, state, Cancel);
      while ch != []
        invariant Ok() && state.phase.Draining? && state.accepted == old(state.accepted) && dropped == old(dropped)
        decreases |ch|
      {
        ReceiveOne();
      }
      FinishDrain();
      AllHanded(cfg, state);
    }
  }

  lemma AllHanded(c: Config, s: Sys)
    requires Inv(c, s) && s.phase.Stopped? && s.queue == []
    ensures forall kind :: Of(s.accepted, kind) == Written(s.handed, kind)
  {
    assert s.accepted == Flatten(s.handed);
    forall kind ensures Of(s.accepted, kind) == Written(s.handed, kind) {
      WrittenIsFiltered(s.handed, kind);
    }
  }
}
