/**
 One job under all its actors at once: the single loop worker, polling and reporting nodes,
 agents, portal users and the metering task.  An actor that reads before it writes does so
 in two steps, and anything may happen in between.
 */
module JobProtocol {
  import opened Wrappers
  import opened Sequences
  import opened JobRow

  /** What the loop worker has read about this job and not yet committed. */
  datatype Loop =
    | Idle
    | Picked
    | Rerouting(excluded: set<Node>, inFlight: set<Node>)
    | PickedStale(stale: Node)
    | Rescheduling(stale: Node, excluded: set<Node>, inFlight: set<Node>)

  /** A completion whose time is stamped but whose UPDATE has not run. */
  datatype Completion = Completion(exit: Option<int>, stamp: Time, begunRunning: bool)

  /** How the recorded start came about, and when the row flipped to running. */
  datatype StartKind = NotStarted | ByAgent(at: Time) | ByReport(reported: Time, at: Time)

  /** One poll request of a node. */
  datatype Poll = Poll(from: Node, ticket: int)

  /** The two times a metering row is computed from. */
  datatype Meter = Meter(started: Time, completed: Time)

  /**
   The row, the decline rows, and the half-done work of every actor.  `pending` holds the
   nodes whose decline flipped the status but is not recorded yet.  The last line is what
   an observer remembers: the latest dispatch, how the start was recorded, the completion that
   took effect, the explicit declines and failed decline inserts so far, every node the job
   was bound to, and the polls that returned the job.
   */
  datatype Sys = Sys(
    job: Job, own: set<Node>, declines: set<Node>, pending: set<Node>, loop: Loop, polls: set<Poll>, starters: set<Node>,
    completions: set<Completion>, meterTasks: nat, meterReads: set<Meter>, metering: Option<Meter>, disputed: bool, clock: Time,
    dispatchedAt: Time, start: StartKind, finishedBy: Option<Completion>, explicit: nat, collisions: nat, bound: set<Node>,
    handedOut: seq<Poll>)

  datatype Step =
    | SelectDeclined | ReadDeclines | CommitReroute(target: Node, deadline: Time) | FailReroute
    | SelectStale | ReadStale | CommitReschedule(target: Node) | Abandon
    | RunUpdate(u: Update)
    | PollSelect(poll: Poll) | PollUpdate(poll: Poll)
    | StartCheck(node: Node) | StartCommit(node: Node)
    | ReportRun(node: Node, reported: Time)
    | BeginComplete(exit: Option<int>) | CommitComplete(c: Completion)
    | ReadMeter | InsertMeter(m: Meter)
    | NodeDecline(node: Node) | RecordDecline(node: Node)
    | UserDecline | ContestNoShow

  datatype Event = Event(now: Time, step: Step)

  /** The updates that are a single statement with no earlier read to go stale. */
  predicate OneShot(u: Update) {
    u in {Confirm, PickUp, Deliver, NoShow, ExpireConfirmation, ExpireDispatched, ExpirePickedUp}
  }

  function Initial(isPrint: bool, confirmEnabled: bool, node: Node, own: set<Node>, deadline: Time, now: Time): Sys {
    Sys(Submit(isPrint, confirmEnabled, node, deadline, now), own, {}, {}, Idle, {}, {}, {}, 0, {}, None, false, now,
        now, NotStarted, None, 0, 0, {node}, [])
  }

  // ---------------------------------------------------------------------------
  // The steps; `s.clock` is already the time of the step
  // ---------------------------------------------------------------------------

  function LoopStep(s: Sys, step: Step): Sys {
    match step
    case SelectDeclined => if s.loop.Idle? && s.job.status.Declined? then s.(loop := Picked) else s
    case ReadDeclines => if s.loop.Picked? then s.(loop := Rerouting(s.declines, s.pending)) else s
    case CommitReroute(target, deadline) =>
      if s.loop.Rerouting? && target !in s.loop.excluded
      then s.(job := Apply(s.job, RerouteTo(target, deadline), s.clock), loop := Idle,
              bound := if Guard(s.job, RerouteTo(target, deadline), s.clock) then s.bound + {target} else s.bound) else s
    case FailReroute =>
      if s.loop.Rerouting? then s.(job := Apply(s.job, RerouteFailed, s.clock), loop := Idle) else s
    case SelectStale =>
      if s.loop.Idle? && s.job.status.Scheduled? && !s.job.isPrint then s.(loop := PickedStale(s.job.node)) else s
    case ReadStale => if s.loop.PickedStale? then s.(loop := Rescheduling(s.loop.stale, s.declines, s.pending)) else s
    case CommitReschedule(target) =>
      if s.loop.Rescheduling? && target != s.loop.stale && target !in s.loop.excluded
      then s.(job := Apply(s.job, RescheduleTo(s.loop.stale, target), s.clock), loop := Idle,
              bound := if Guard(s.job, RescheduleTo(s.loop.stale, target), s.clock) then s.bound + {target} else s.bound) else s
    case Abandon => s.(loop := Idle)
    case _ => s
  }

  function NodeStep(s: Sys, step: Step): Sys {
    match step
    case PollSelect(p) =>
      if s.job.status.Scheduled? && s.job.node == p.from && !(s.job.isPrint && p.from in s.own) then s.(polls := s.polls + {p}) else s
    case PollUpdate(p) =>
      if p !in s.polls || (s.job.isPrint && p.from in s.own) then s
      else s.(polls := s.polls - {p}, job := Apply(s.job, Dispatch, s.clock), handedOut := s.handedOut + [p],
              dispatchedAt := if Guard(s.job, Dispatch, s.clock) then s.clock else s.dispatchedAt)
    case StartCheck(n) => if s.job.node == n then s.(starters := s.starters + {n}) else s
    case StartCommit(n) =>
      if n !in s.starters then s
      else s.(starters := s.starters - {n}, job := Apply(s.job, Start, s.clock),
              start := if Guard(s.job, Start, s.clock) then ByAgent(s.clock) else s.start)
    case ReportRun(n, reported) =>
      s.(job := Apply(s.job, Report(n, reported), s.clock),
         start := if Guard(s.job, Report(n, reported), s.clock) then ByReport(reported, s.clock) else s.start)
    case BeginComplete(exit) => s.(completions := s.completions + {Completion(exit, s.clock, s.job.status.Running?)})
    case CommitComplete(c) =>
      if c !in s.completions then s
      else if !s.job.status.Running? then s.(completions := s.completions - {c})
      else s.(completions := s.completions - {c}, job := Set(s.job, Complete(c.exit, c.stamp), s.clock), finishedBy := Some(c),
              meterTasks := s.meterTasks + if OutcomeOf(s.job.isPrint, c.exit).Completed? then 1 else 0)
    case NodeDecline(n) =>
      if !Guard(s.job, DeclineByNode(n), s.clock) then s
      else s.(job := Set(s.job, DeclineByNode(n), s.clock), pending := s.pending + {n}, explicit := s.explicit + 1)
    case RecordDecline(n) => if n !in s.pending then s else s.(pending := s.pending - {n}, declines := s.declines + {n})
    case _ => s
  }

  function OfficeStep(s: Sys, step: Step): Sys {
    match step
    case RunUpdate(u) => if OneShot(u) then s.(job := Apply(s.job, u, s.clock)) else s
    case UserDecline =>
      if !Guard(s.job, DeclineOnPortal, s.clock) then s
      else if s.job.node in s.declines then s.(collisions := s.collisions + 1)
      else s.(job := Set(s.job, DeclineOnPortal, s.clock), declines := s.declines + {s.job.node}, explicit := s.explicit + 1)
    case ReadMeter =>
      if s.meterTasks == 0 then s
      else if s.job.startedAt.None? || s.job.completedAt.None? then s.(meterTasks := s.meterTasks - 1)
      else s.(meterTasks := s.meterTasks - 1, meterReads := s.meterReads + {Meter(s.job.startedAt.value, s.job.completedAt.value)})
    case InsertMeter(m) =>
      if m !in s.meterReads then s
      else s.(meterReads := s.meterReads - {m}, metering := if s.metering.None? then Some(m) else s.metering)
    case ContestNoShow =>
      if s.job.status.Failed? && s.job.noShow && s.job.completedAt.Some? && s.job.completedAt.value > s.clock - DISPUTE_WINDOW && !s.disputed
      then s.(disputed := true) else s
    case _ => s
  }

  /** Each step belongs to one group of actors and is no step of the others. */
  function Next(s: Sys, e: Event): Sys {
    OfficeStep(NodeStep(LoopStep(s.(clock := e.now), e.step), e.step), e.step)
  }

  // The effect of single steps, for the runs that are spelled out below.

  lemma ListStep(s: Sys, now: Time, p: Poll)
    requires s.job.status.Scheduled? && s.job.node == p.from && !s.job.isPrint
    ensures Next(s, Event(now, PollSelect(p))) == s.(clock := now, polls := s.polls + {p})
  {
  }

  lemma ClaimingStep(s: Sys, now: Time, p: Poll)
    requires s.job.status.Scheduled? && p in s.polls && !s.job.isPrint
    ensures Next(s, Event(now, PollUpdate(p))) ==
            s.(clock := now, polls := s.polls - {p}, job := s.job.(status := Dispatched, updatedAt := now),
               dispatchedAt := now, handedOut := s.handedOut + [p])
  {
  }

  lemma EmptyHandedStep(s: Sys, now: Time, p: Poll)
    requires s.job.status.Dispatched? && p in s.polls && !s.job.isPrint
    ensures Next(s, Event(now, PollUpdate(p))) == s.(clock := now, polls := s.polls - {p}, handedOut := s.handedOut + [p])
  {
  }

  lemma StaleSteps(s: Sys, s1: Sys, s2: Sys, now: Time, later: Time)
    requires s.loop.Idle? && s.job.status.Scheduled? && !s.job.isPrint
    requires s1 == Next(s, Event(now, SelectStale)) && s2 == Next(s1, Event(later, ReadStale))
    ensures s2 == s.(clock := later, loop := Rescheduling(s.job.node, s.declines, s.pending))
  {
  }

  lemma RescheduleStep(s: Sys, now: Time, n: Node)
    requires s.loop.Rescheduling? && n != s.loop.stale && n !in s.loop.excluded && s.job.status.Scheduled? && s.job.node == s.loop.stale
    ensures Next(s, Event(now, CommitReschedule(n))) ==
            s.(clock := now, loop := Idle, job := s.job.(node := n, updatedAt := now), bound := s.bound + {n})
  {
  }

  lemma DeclineSteps(s: Sys, s1: Sys, s2: Sys, s3: Sys, now: Time)
    requires s.job.status.Scheduled? && s.loop.Idle?
    requires s1 == Next(s, Event(now, NodeDecline(s.job.node))) && s2 == Next(s1, Event(now, SelectDeclined))
    requires s3 == Next(s2, Event(now, ReadDeclines))
    ensures s3.job == s.job.(status := Declined, updatedAt := now) && s3.loop == Rerouting(s.declines, s.pending + {s.job.node})
    ensures s3.declines == s.declines && s3.pending == s.pending + {s.job.node} && s3.collisions == s.collisions
  {
  }

  ghost predicate IsRun(states: seq<Sys>, events: seq<Event>) {
    && |states| == |events| + 1
    && (exists isPrint, confirmEnabled, node, own, deadline, now ::
          states[0] == Initial(isPrint, confirmEnabled, node, own, deadline, now))
    && (forall i {:trigger Marked(i)} | 0 <= i < |events| ::
          events[i].now >= states[i].clock && states[i + 1] == Next(states[i], events[i]))
  }

  lemma StepOf(states: seq<Sys>, events: seq<Event>, i: nat)
    requires IsRun(states, events) && i < |events|
    ensures events[i].now >= states[i].clock && states[i + 1] == Next(states[i], events[i])
  {
    assert Marked(i);
  }

  /** The guarded update that a step runs, if what it read before lets it run one. */
  function UpdateOf(s: Sys, step: Step): Option<Update> {
    match step
    case CommitReroute(target, deadline) =>
      if s.loop.Rerouting? && target !in s.loop.excluded then Some(RerouteTo(target, deadline)) else None
    case FailReroute => if s.loop.Rerouting? then Some(RerouteFailed) else None
    case CommitReschedule(target) =>
      if s.loop.Rescheduling? && target != s.loop.stale && target !in s.loop.excluded then Some(RescheduleTo(s.loop.stale, target)) else None
    case RunUpdate(u) => if OneShot(u) then Some(u) else None
    case PollUpdate(p) => if p in s.polls && !(s.job.isPrint && p.from in s.own) then Some(Dispatch) else None
    case StartCommit(n) => if n in s.starters then Some(Start) else None
    case ReportRun(n, reported) => Some(Report(n, reported))
    case CommitComplete(c) => if c in s.completions then Some(Complete(c.exit, c.stamp)) else None
    case NodeDecline(n) => Some(DeclineByNode(n))
    case UserDecline => if s.job.node in s.declines then None else Some(DeclineOnPortal)
    case _ => None
  }

  /** The change a step makes to the row is that update, or none. */
  lemma JobStep(s: Sys, e: Event)
    ensures Next(s, e).job == if UpdateOf(s, e.step).Some? then Apply(s.job, UpdateOf(s, e.step).value, e.now) else s.job
  {
  }

  lemma RowChange(s: Sys, e: Event) returns (u: Update)
    ensures Next(s, e).job == s.job || Next(s, e).job == Apply(s.job, u, e.now)
    ensures (u.RerouteTo? ==> e.step.CommitReroute?) && (u.RescheduleTo? ==> e.step.CommitReschedule?)
  {
    hide Next, Apply;
    JobStep(s, e);
    u := if UpdateOf(s, e.step).Some? then UpdateOf(s, e.step).value else Confirm;
  }

  /** The status a step moves the row to, by the table of the row's lifecycle. */
  function StepTarget(s: Sys, e: Event): Option<Status> {
    if UpdateOf(s, e.step).Some? then Target(s.job, UpdateOf(s, e.step).value, e.now) else None
  }

  lemma LifecycleStep(s: Sys, e: Event)
    ensures var j := Next(s, e).job;
            && j.status == (if StepTarget(s, e).Some? then StepTarget(s, e).value else s.job.status)
            && (StepTarget(s, e).Some? ==> Stamped(s.job, j, UpdateOf(s, e.step).value, e.now))
            && (StepTarget(s, e).None? ==> j == s.job || (e.step.CommitReschedule? && j == s.job.(node := e.step.target, updatedAt := e.now)))
  {
    hide Next, Apply, Target, Stamped;
    JobStep(s, e);
    if UpdateOf(s, e.step).Some? {
      MovesAsTabled(s.job, UpdateOf(s, e.step).value, e.now);
    }
  }

  // ---------------------------------------------------------------------------
  // The row over a whole run
  // ---------------------------------------------------------------------------

  lemma ShapeStep(s: Sys, e: Event)
    requires Shape(s.job)
    ensures Shape(Next(s, e).job)
    ensures Terminal(s.job) ==> Next(s, e).job == s.job
    ensures Started(s.job) ==>
              Started(Next(s, e).job) && Next(s, e).job.startedAt == s.job.startedAt && Next(s, e).job.node == s.job.node
  {
    hide Next, Guard, Set;
    var u := RowChange(s, e);
    ApplyKeepsShape(s.job, u, e.now);
    if Terminal(s.job) {
      TerminalRowsAreFrozen(s.job, u, e.now);
    }
    if Started(s.job) {
      StartFixesNode(s.job, u, e.now);
    }
  }

  lemma {:induction false} RunKeepsShape(states: seq<Sys>, events: seq<Event>, n: nat)
    requires IsRun(states, events) && n < |states|
    ensures Shape(states[n].job)
  {
    hide Next;
    if n > 0 {
      RunKeepsShape(states, events, n - 1);
      StepOf(states, events, n - 1);
      ShapeStep(states[n - 1], events[n - 1]);
    }
  }

  /** Completed, failed and delivered rows never change again, in any column. */
  lemma {:induction false} TerminalForever(states: seq<Sys>, events: seq<Event>, m: nat, n: nat)
    requires IsRun(states, events) && m <= n < |states| && Terminal(states[m].job)
    ensures states[n].job == states[m].job
  {
    hide Next;
    if m < n {
      TerminalForever(states, events, m, n - 1);
      StepOf(states, events, n - 1);
      RunKeepsShape(states, events, n - 1);
      ShapeStep(states[n - 1], events[n - 1]);
    }
  }

  /** From running onward the start and the node are fixed. */
  lemma {:induction false} NodeFixedFromStart(states: seq<Sys>, events: seq<Event>, m: nat, n: nat)
    requires IsRun(states, events) && m <= n < |states| && states[m].job.status.Running?
    ensures Started(states[n].job) && states[n].job.startedAt == states[m].job.startedAt && states[n].job.node == states[m].job.node
  {
    hide Next;
    RunKeepsShape(states, events, m);
    if m < n {
      NodeFixedFromStart(states, events, m, n - 1);
      StepOf(states, events, n - 1);
      RunKeepsShape(states, events, n - 1);
      ShapeStep(states[n - 1], events[n - 1]);
    }
  }

  // ---------------------------------------------------------------------------
  // Metering
  // ---------------------------------------------------------------------------

  /** The times a metering row may carry. */
  predicate MetersJob(j: Job, m: Meter) {
    j.status.Completed? && j.startedAt == Some(m.started) && j.completedAt == Some(m.completed)
  }

  ghost predicate MeterInv(s: Sys) {
    && (s.meterTasks > 0 ==> s.job.status.Completed?)
    && (forall m | m in s.meterReads :: MetersJob(s.job, m))
    && (s.metering.Some? ==> MetersJob(s.job, s.metering.value))
  }

  lemma MeterLoop(s: Sys, step: Step)
    requires Shape(s.job) && MeterInv(s)
    ensures var s' := LoopStep(s, step); Shape(s'.job) && MeterInv(s') && s'.metering == s.metering
  {
  }

  lemma MeterNode(s: Sys, step: Step)
    requires Shape(s.job) && MeterInv(s)
    ensures var s' := NodeStep(s, step); Shape(s'.job) && MeterInv(s') && s'.metering == s.metering
  {
  }

  lemma MeterOffice(s: Sys, step: Step)
    requires Shape(s.job) && MeterInv(s)
    ensures var s' := OfficeStep(s, step); MeterInv(s') && (s.metering.Some? ==> s'.metering == s.metering)
  {
  }

  lemma MeterStep(s: Sys, e: Event)
    requires Shape(s.job) && MeterInv(s)
    ensures MeterInv(Next(s, e))
    ensures s.metering.Some? ==> Next(s, e).metering == s.metering
  {
    hide LoopStep, NodeStep, OfficeStep;
    var s0 := s.(clock := e.now);
    MeterLoop(s0, e.step);
    MeterNode(LoopStep(s0, e.step), e.step);
    MeterOffice(NodeStep(LoopStep(s0, e.step), e.step), e.step);
  }

  lemma {:induction false} RunKeepsMeterInv(states: seq<Sys>, events: seq<Event>, n: nat)
    requires IsRun(states, events) && n < |states|
    ensures MeterInv(states[n])
  {
    hide Next;
    if n > 0 {
      RunKeepsMeterInv(states, events, n - 1);
      RunKeepsShape(states, events, n - 1);
      StepOf(states, events, n - 1);
      MeterStep(states[n - 1], events[n - 1]);
    }
  }

  /** A metering row exists only for a completed non-print job that exited with zero, carries its times, and never changes. */
  lemma {:induction false} MeteredOnce(states: seq<Sys>, events: seq<Event>, m: nat, n: nat)
    requires IsRun(states, events) && m <= n < |states| && states[m].metering.Some?
    ensures states[n].metering == states[m].metering
    ensures var j := states[n].job;
            !j.isPrint && j.exitCode == Some(0) && MetersJob(j, states[n].metering.value)
  {
    hide Next;
    RunKeepsShape(states, events, n);
    RunKeepsMeterInv(states, events, n);
    if m < n {
      MeteredOnce(states, events, m, n - 1);
      RunKeepsShape(states, events, n - 1);
      RunKeepsMeterInv(states, events, n - 1);
      StepOf(states, events, n - 1);
      MeterStep(states[n - 1], events[n - 1]);
    }
  }

  // ---------------------------------------------------------------------------
  // Times
  // ---------------------------------------------------------------------------

  ghost predicate StartInv(s: Sys) {
    && s.job.updatedAt <= s.clock && s.dispatchedAt <= s.clock
    && (s.job.status.Dispatched? ==> s.job.updatedAt == s.dispatchedAt)
    && (Started(s.job) <==> !s.start.NotStarted?)
    && (Started(s.job) ==> s.dispatchedAt <= s.job.startedAt.value <= s.start.at <= s.clock)
    && (s.start.ByAgent? ==> s.job.startedAt == Some(s.start.at))
    && (s.start.ByReport? ==> s.job.startedAt == Some(Min(Max(s.start.reported, s.dispatchedAt), s.start.at)))
  }

  lemma StartLoop(s: Sys, step: Step)
    requires Shape(s.job) && StartInv(s)
    ensures Shape(LoopStep(s, step).job) && StartInv(LoopStep(s, step))
  {
  }

  lemma StartNode(s: Sys, step: Step)
    requires Shape(s.job) && StartInv(s)
    ensures Shape(NodeStep(s, step).job) && StartInv(NodeStep(s, step))
  {
  }

  lemma StartOffice(s: Sys, step: Step)
    requires Shape(s.job) && StartInv(s)
    ensures Shape(OfficeStep(s, step).job) && StartInv(OfficeStep(s, step))
  {
  }

  lemma StartStep(s: Sys, e: Event)
    requires Shape(s.job) && StartInv(s) && e.now >= s.clock
    ensures StartInv(Next(s, e))
  {
    hide LoopStep, NodeStep, OfficeStep;
    var s0 := s.(clock := e.now);
    StartLoop(s0, e.step);
    StartNode(LoopStep(s0, e.step), e.step);
    StartOffice(NodeStep(LoopStep(s0, e.step), e.step), e.step);
  }

  /** Where a completion stands relative to the recorded start. */
  predicate Ordered(s: Sys, c: Completion) {
    && c.stamp <= s.clock
    && (c.begunRunning ==> s.job.startedAt.Some? && s.job.startedAt.value <= c.stamp)
    && (!c.begunRunning && s.job.status.Running? ==> !s.start.NotStarted? && c.stamp <= s.start.at)
  }

  /** The completion that took effect, relative to the start. */
  predicate FinishedInOrder(s: Sys, c: Completion) {
    && s.job.startedAt.Some? && !s.job.status.Running? && c.stamp <= s.clock
    && (c.begunRunning ==> s.job.startedAt.value <= c.stamp)
    && (!c.begunRunning ==> !s.start.NotStarted? && c.stamp <= s.start.at)
  }

  /** A completion call ended the job, in success or failure; a later no-show has its own end. */
  predicate EndedByCompletion(s: Sys) {
    s.finishedBy.Some? && (s.job.status.Completed? || (s.job.status.Failed? && !s.job.noShow))
  }

  ghost predicate FinishInv(s: Sys) {
    && (forall c | c in s.completions :: Ordered(s, c))
    && (s.job.status.Completed? ==> s.finishedBy.Some?)
    && (EndedByCompletion(s) ==> s.job.completedAt == Some(s.finishedBy.value.stamp))
    && (s.finishedBy.Some? ==> FinishedInOrder(s, s.finishedBy.value))
    && (s.job.status.Delivered? || s.job.noShow ==>
          s.job.startedAt.Some? && s.job.completedAt.Some? && s.job.startedAt.value <= s.job.completedAt.value <= s.clock)
  }

  lemma FinishLoop(s: Sys, step: Step)
    requires Shape(s.job) && StartInv(s) && FinishInv(s)
    ensures FinishInv(LoopStep(s, step))
  {
  }

  lemma FinishNode(s: Sys, step: Step)
    requires Shape(s.job) && StartInv(s) && FinishInv(s)
    ensures FinishInv(NodeStep(s, step))
  {
  }

  lemma FinishOffice(s: Sys, step: Step)
    requires Shape(s.job) && StartInv(s) && FinishInv(s)
    ensures FinishInv(OfficeStep(s, step))
  {
  }

  lemma FinishStep(s: Sys, e: Event)
    requires Shape(s.job) && StartInv(s) && FinishInv(s) && e.now >= s.clock
    ensures FinishInv(Next(s, e))
  {
    hide LoopStep, NodeStep, OfficeStep;
    var s0 := s.(clock := e.now);
    var s1 := LoopStep(s0, e.step);
    StartLoop(s0, e.step);
    FinishLoop(s0, e.step);
    StartNode(s1, e.step);
    FinishNode(s1, e.step);
    FinishOffice(NodeStep(s1, e.step), e.step);
  }

  lemma {:induction false} RunKeepsTimes(states: seq<Sys>, events: seq<Event>, n: nat)
    requires IsRun(states, events) && n < |states|
    ensures StartInv(states[n]) && FinishInv(states[n])
  {
    hide Next;
    if n > 0 {
      RunKeepsTimes(states, events, n - 1);
      RunKeepsShape(states, events, n - 1);
      StepOf(states, events, n - 1);
      StartStep(states[n - 1], events[n - 1]);
      FinishStep(states[n - 1], events[n - 1]);
    }
  }

  /**
   While dispatched the row's update time is the dispatch; whatever start a node reports, it
   lies between the dispatch and now; a delivered or abandoned print ends after its start, and
   so does a job that a call begun while it was running completed or failed.
   */
  lemma TimesInOrder(states: seq<Sys>, events: seq<Event>, n: nat)
    requires IsRun(states, events) && n < |states|
    ensures var s := states[n];
            var j := s.job;
            && (j.status.Dispatched? ==> j.updatedAt == s.dispatchedAt && j.startedAt.None?)
            && (Started(j) ==> s.dispatchedAt <= j.startedAt.value <= s.clock)
            && (j.status.Delivered? || j.noShow ==>
                  Started(j) && j.completedAt.Some? && j.startedAt.value <= j.completedAt.value <= s.clock)
            && (j.status.Completed? ==> EndedByCompletion(s))
            && (EndedByCompletion(s) ==>
                  && Started(j) && j.completedAt.Some? && j.completedAt.value <= s.clock
                  && (s.finishedBy.value.begunRunning ==> j.startedAt.value <= j.completedAt.value))
  {
    hide Next;
    RunKeepsShape(states, events, n);
    RunKeepsTimes(states, events, n);
  }

  /**
   The completing call began while the job ran, or was stamped at the instant the row flipped
   to running, or was stamped no earlier than the start the node then reported.
   */
  predicate CompletionAfterStart(s: Sys)
    requires s.finishedBy.Some?
  {
    var c := s.finishedBy.value;
    || c.begunRunning
    || (!s.start.NotStarted? && c.stamp == s.start.at)
    || (s.start.ByReport? && Max(s.start.reported, s.dispatchedAt) <= c.stamp)
  }

  /** Of every job that a completion ended, however it was started, the times are in order exactly then. */
  lemma EndsAfterStartExactlyWhen(states: seq<Sys>, events: seq<Event>, n: nat)
    requires IsRun(states, events) && n < |states| && EndedByCompletion(states[n])
    ensures var s := states[n];
            && Started(s.job) && s.job.completedAt.Some?
            && (s.job.startedAt.value <= s.job.completedAt.value <==> CompletionAfterStart(s))
  {
    hide Next;
    RunKeepsShape(states, events, n);
    RunKeepsTimes(states, events, n);
  }

  /** The metered duration is at most completion minus dispatch, and not negative exactly then. */
  lemma MeteredDurationBounded(states: seq<Sys>, events: seq<Event>, n: nat)
    requires IsRun(states, events) && n < |states| && states[n].metering.Some?
    ensures var s := states[n];
            var duration := s.metering.value.completed - s.metering.value.started;
            && s.finishedBy.Some?
            && duration <= s.metering.value.completed - s.dispatchedAt
            && (0 <= duration <==> CompletionAfterStart(s))
  {
    hide Next;
    TimesInOrder(states, events, n);
    RunKeepsMeterInv(states, events, n);
    EndsAfterStartExactlyWhen(states, events, n);
  }

  lemma OvertakenCompletion(s: Sys, s1: Sys, s2: Sys, s3: Sys, s4: Sys)
    requires s.job.status.Dispatched? && !s.job.isPrint && s.clock < 3
    requires s1 == Next(s, Event(3, BeginComplete(Some(0)))) && s2 == Next(s1, Event(4, StartCheck(s.job.node)))
    requires s3 == Next(s2, Event(5, StartCommit(s.job.node))) && s4 == Next(s3, Event(6, CommitComplete(Completion(Some(0), 3, false))))
    ensures s4.job.status.Completed? && s4.job.startedAt == Some(5) && s4.job.completedAt == Some(3) && s4.meterTasks == s.meterTasks + 1
  {
    assert s3.job.status.Running? && s3.job.startedAt == Some(5);
  }

  /** A completion call that overtakes the start call is stamped first and commits last: the job ends before it starts. */
  lemma CompletionMayPrecedeStart(s0: Sys, s1: Sys, s2: Sys, s3: Sys, s4: Sys, s5: Sys, s6: Sys)
    requires s0 == Initial(false, false, "a", {}, 0, 0)
    requires s1 == Next(s0, Event(1, PollSelect(Poll("a", 1)))) && s2 == Next(s1, Event(2, PollUpdate(Poll("a", 1))))
    requires s3 == Next(s2, Event(3, BeginComplete(Some(0)))) && s4 == Next(s3, Event(4, StartCheck("a")))
    requires s5 == Next(s4, Event(5, StartCommit("a"))) && s6 == Next(s5, Event(6, CommitComplete(Completion(Some(0), 3, false))))
    ensures s6.job.status.Completed? && s6.job.startedAt == Some(5) && s6.job.completedAt == Some(3) && s6.meterTasks == 1
  {
    hide Next;
    ListStep(s0, 1, Poll("a", 1));
    ClaimingStep(s1, 2, Poll("a", 1));
    assert s2.job.status.Dispatched? && s2.job.node == "a" && s2.meterTasks == 0 && !s2.job.isPrint && s2.clock == 2;
    OvertakenCompletion(s2, s3, s4, s5, s6);
  }

  lemma ReportAfterCompletion(s: Sys, s1: Sys, s2: Sys, s3: Sys, exit: int)
    requires s.job.status.Dispatched? && Shape(s.job) && !s.job.isPrint && s.clock < 3 && s.job.updatedAt < 3
    requires s1 == Next(s, Event(3, BeginComplete(Some(exit)))) && s2 == Next(s1, Event(5, ReportRun(s.job.node, 5)))
    requires s3 == Next(s2, Event(6, CommitComplete(Completion(Some(exit), 3, false))))
    ensures s3.job.status == (if exit == 0 then Completed else Failed) && EndedByCompletion(s3)
    ensures s3.job.startedAt == Some(5) && s3.job.completedAt == Some(3)
    ensures s3.meterTasks == s.meterTasks + if exit == 0 then 1 else 0
  {
    assert s2.job.status.Running? && s2.job.startedAt == Some(5);
  }

  /** The same with a start that the node's report supplies, whether the job succeeds or fails. */
  lemma ReportMayFollowCompletion(s0: Sys, s1: Sys, s2: Sys, s3: Sys, s4: Sys, s5: Sys, exit: int)
    requires s0 == Initial(false, false, "a", {}, 0, 0)
    requires s1 == Next(s0, Event(1, PollSelect(Poll("a", 1)))) && s2 == Next(s1, Event(2, PollUpdate(Poll("a", 1))))
    requires s3 == Next(s2, Event(3, BeginComplete(Some(exit)))) && s4 == Next(s3, Event(5, ReportRun("a", 5)))
    requires s5 == Next(s4, Event(6, CommitComplete(Completion(Some(exit), 3, false))))
    ensures s5.job.status == (if exit == 0 then Completed else Failed) && EndedByCompletion(s5)
    ensures s5.job.startedAt == Some(5) && s5.job.completedAt == Some(3) && s5.meterTasks == if exit == 0 then 1 else 0
  {
    hide Next;
    ListStep(s0, 1, Poll("a", 1));
    ClaimingStep(s1, 2, Poll("a", 1));
    assert s2.job.status.Dispatched? && s2.job.node == "a" && s2.meterTasks == 0 && Shape(s2.job) && !s2.job.isPrint;
    assert s2.clock == 2 && s2.job.updatedAt == 2;
    ReportAfterCompletion(s2, s3, s4, s5, exit);
  }

  // ---------------------------------------------------------------------------
  // Polls
  // ---------------------------------------------------------------------------

  /** The poll's SELECT lists the job. */
  predicate Lists(s: Sys, e: Event, p: Poll) {
    e.step == PollSelect(p) && s.job.status.Scheduled? && s.job.node == p.from && !(s.job.isPrint && p.from in s.own)
  }

  /** The poll returns the job, whether or not its UPDATE claims it. */
  predicate HandsOut(s: Sys, e: Event, p: Poll) {
    e.step == PollUpdate(p) && p in s.polls && !(s.job.isPrint && p.from in s.own)
  }

  /** The poll claims the job: the UPDATE finds it scheduled. */
  predicate Claims(s: Sys, e: Event, p: Poll) {
    HandsOut(s, e, p) && s.job.status.Scheduled?
  }

  /** Where a loop commit that takes effect moves the job. */
  function Moves(s: Sys, e: Event): Option<Node> {
    match e.step
    case CommitReroute(target, _) =>
      if s.loop.Rerouting? && target !in s.loop.excluded && s.job.status.Declined? then Some(target) else None
    case CommitReschedule(target) =>
      if s.loop.Rescheduling? && target != s.loop.stale && target !in s.loop.excluded
         && s.job.status.Scheduled? && s.job.node == s.loop.stale then Some(target) else None
    case _ => None
  }

  lemma LoopRebinds(j: Job, u: Update, now: Time)
    requires u.RerouteTo? || u.RescheduleTo?
    ensures Apply(j, u, now).node ==
            if (u.RerouteTo? && j.status.Declined?) || (u.RescheduleTo? && j.status.Scheduled? && j.node == u.from) then u.target else j.node
  {
  }

  lemma HolderStep(s: Sys, e: Event)
    ensures Next(s, e).job.node == if Moves(s, e).Some? then Moves(s, e).value else s.job.node
  {
    hide Next, Guard, Set;
    JobStep(s, e);
    var u := UpdateOf(s, e.step);
    if u.Some? && !u.value.RerouteTo? && !u.value.RescheduleTo? {
      OnlyTheLoopRebinds(s.job, u.value, e.now);
    } else if u.Some? {
      LoopRebinds(s.job, u.value, e.now);
    }
  }

  lemma PollStep(s: Sys, e: Event, p: Poll)
    ensures p in Next(s, e).polls ==> p in s.polls || Lists(s, e, p)
  {
  }

  /** The last time the poll's SELECT listed the job before k. */
  ghost predicate LastListing(states: seq<Sys>, events: seq<Event>, p: Poll, m: int, k: int)
    requires |states| == |events| + 1 && k <= |events|
  {
    0 <= m < k && Lists(states[m], events[m], p) && forall i | m < i < k :: !Lists(states[i], events[i], p)
  }

  lemma {:induction false} PollerWasListed(states: seq<Sys>, events: seq<Event>, p: Poll, k: nat) returns (m: int)
    requires IsRun(states, events) && k <= |events| && p in states[k].polls
    ensures LastListing(states, events, p, m, k)
  {
    hide Next, Lists;
    if k == 0 {
      m := 0;
    } else {
      StepOf(states, events, k - 1);
      PollStep(states[k - 1], events[k - 1], p);
      if Lists(states[k - 1], events[k - 1], p) {
        m := k - 1;
      } else {
        m := PollerWasListed(states, events, p, k - 1);
      }
    }
  }

  /** The last loop commit between m and k that takes effect moves the job to n. */
  ghost predicate LastMove(states: seq<Sys>, events: seq<Event>, n: Node, c: int, m: int, k: int)
    requires |states| == |events| + 1 && 0 <= m && k <= |events|
  {
    m < c < k && Moves(states[c], events[c]) == Some(n) && forall i | c < i < k :: Moves(states[i], events[i]).None?
  }

  /** No loop commit takes effect between m and k, or the last one moves the job to n. */
  ghost predicate CommitsLeaveAt(states: seq<Sys>, events: seq<Event>, n: Node, m: int, k: int)
    requires |states| == |events| + 1 && 0 <= m && k <= |events|
  {
    || (forall i | m < i < k :: Moves(states[i], events[i]).None?)
    || (exists c :: LastMove(states, events, n, c, m, k))
  }

  lemma CommitsStep(states: seq<Sys>, events: seq<Event>, n: Node, m: int, k: int)
    requires |states| == |events| + 1 && 0 <= m < k < |events|
    ensures CommitsLeaveAt(states, events, n, m, k + 1) <==>
            (Moves(states[k], events[k]) == Some(n) || (Moves(states[k], events[k]).None? && CommitsLeaveAt(states, events, n, m, k)))
  {
    hide Moves;
    if Moves(states[k], events[k]) == Some(n) {
      assert LastMove(states, events, n, k, m, k + 1);
    } else if Moves(states[k], events[k]).None? {
      if exists c :: LastMove(states, events, n, c, m, k) {
        var c :| LastMove(states, events, n, c, m, k);
        assert LastMove(states, events, n, c, m, k + 1);
      }
      var next := k + 1;
      if exists c :: LastMove(states, events, n, c, m, next) {
        var c :| LastMove(states, events, n, c, m, next);
        assert LastMove(states, events, n, c, m, k);
      }
    }
  }

  lemma {:induction false} CommitsDecideHolder(states: seq<Sys>, events: seq<Event>, n: Node, m: nat, k: nat)
    requires IsRun(states, events) && m < k <= |events| && states[m + 1].job.node == n
    ensures states[k].job.node == n <==> CommitsLeaveAt(states, events, n, m, k)
  {
    hide Next, Moves;
    if k > m + 1 {
      hide CommitsLeaveAt;
      CommitsDecideHolder(states, events, n, m, k - 1);
      StepOf(states, events, k - 1);
      HolderStep(states[k - 1], events[k - 1]);
      CommitsStep(states, events, n, m, k - 1);
    }
  }

  /**
   A poll's UPDATE that claims the job finds it bound to the polling node exactly when the loop
   commits since the poll's listing leave it there.
   */
  lemma ClaimedForSelfExactlyWhen(states: seq<Sys>, events: seq<Event>, p: Poll, k: nat) returns (m: int)
    requires IsRun(states, events) && k < |events| && Claims(states[k], events[k], p)
    ensures LastListing(states, events, p, m, k) && states[k + 1].job.status.Dispatched?
    ensures states[k + 1].job.node == p.from <==> CommitsLeaveAt(states, events, p.from, m, k)
  {
    hide Next, CommitsLeaveAt;
    StepOf(states, events, k);
    ClaimStep(states[k], events[k], p);
    m := PollerWasListed(states, events, p, k);
    StepOf(states, events, m);
    HolderStep(states[m], events[m]);
    CommitsDecideHolder(states, events, p.from, m, k);
  }

  lemma ClaimStep(s: Sys, e: Event, p: Poll)
    requires Claims(s, e, p)
    ensures Next(s, e).job.status.Dispatched? && Next(s, e).job.node == s.job.node
  {
  }

  /** A job rebound between a poll's listing and its UPDATE is claimed by the old node for the new one. */
  lemma ClaimedForAnother(s0: Sys, s1: Sys, s2: Sys, s3: Sys, s4: Sys, s5: Sys)
    requires s0 == Initial(false, false, "a", {}, 0, 0)
    requires s1 == Next(s0, Event(1, PollSelect(Poll("a", 1)))) && s2 == Next(s1, Event(2, SelectStale)) && s3 == Next(s2, Event(3, ReadStale))
    requires s4 == Next(s3, Event(4, CommitReschedule("b"))) && s5 == Next(s4, Event(5, PollUpdate(Poll("a", 1))))
    ensures Claims(s4, Event(5, PollUpdate(Poll("a", 1))), Poll("a", 1)) && s5.job.status.Dispatched? && s5.job.node == "b"
  {
    hide Next;
    ListStep(s0, 1, Poll("a", 1));
    StaleSteps(s1, s2, s3, 2, 3);
    RescheduleStep(s3, 4, "b");
    ClaimingStep(s4, 5, Poll("a", 1));
  }

  /** The step takes the row out of scheduled: some poll claims it, or its node declines. */
  predicate Unschedules(s: Sys, e: Event) {
    && s.job.status.Scheduled?
    && ((e.step.PollUpdate? && HandsOut(s, e, e.step.poll)) || (e.step.NodeDecline? && e.step.node == s.job.node))
  }

  /** The step makes the row scheduled again: confirmed, dispatch timed out, or a declined non-print job rerouted. */
  predicate Schedules(s: Sys, e: Event) {
    || (e.step == RunUpdate(Confirm) && s.job.status.AwaitingConfirmation?)
    || (e.step == RunUpdate(ExpireDispatched) && s.job.status.Dispatched? && e.now - s.job.updatedAt > 120)
    || (e.step.CommitReroute? && Moves(s, e).Some? && !s.job.isPrint)
  }

  lemma ScheduledStep(s: Sys, e: Event)
    ensures Next(s, e).job.status.Scheduled? <==> Schedules(s, e) || (s.job.status.Scheduled? && !Unschedules(s, e))
  {
    hide Next, Apply;
    LifecycleStep(s, e);
  }

  /** Since m the row was never taken out of scheduled, or made scheduled again after the last time it was. */
  ghost predicate StaysScheduled(states: seq<Sys>, events: seq<Event>, m: int, k: int)
    requires |states| == |events| + 1 && 0 <= m && k <= |events|
  {
    || (forall i | m < i < k :: !Unschedules(states[i], events[i]))
    || (exists r :: RescheduledAt(states, events, r, m, k))
  }

  ghost predicate RescheduledAt(states: seq<Sys>, events: seq<Event>, r: int, m: int, k: int)
    requires |states| == |events| + 1 && 0 <= m && k <= |events|
  {
    m < r < k && Schedules(states[r], events[r]) && forall i | r < i < k :: !Unschedules(states[i], events[i])
  }

  lemma StaysScheduledStep(states: seq<Sys>, events: seq<Event>, m: int, k: int)
    requires |states| == |events| + 1 && 0 <= m < k < |events|
    ensures StaysScheduled(states, events, m, k + 1) <==>
            Schedules(states[k], events[k]) || (StaysScheduled(states, events, m, k) && !Unschedules(states[k], events[k]))
  {
    hide Schedules, Unschedules;
    var next := k + 1;
    if Schedules(states[k], events[k]) {
      assert RescheduledAt(states, events, k, m, next);
    }
    if exists r :: RescheduledAt(states, events, r, m, k) {
      var r :| RescheduledAt(states, events, r, m, k);
      assert !Unschedules(states[k], events[k]) ==> RescheduledAt(states, events, r, m, next);
    }
    if exists r :: RescheduledAt(states, events, r, m, next) {
      var r :| RescheduledAt(states, events, r, m, next);
      assert r < k ==> RescheduledAt(states, events, r, m, k);
    }
  }

  lemma {:induction false} ScheduledExactlyWhen(states: seq<Sys>, events: seq<Event>, m: nat, k: nat)
    requires IsRun(states, events) && m < k <= |events| && states[m + 1].job.status.Scheduled?
    ensures states[k].job.status.Scheduled? <==> StaysScheduled(states, events, m, k)
  {
    hide Next, Schedules, Unschedules;
    if k > m + 1 {
      hide StaysScheduled;
      ScheduledExactlyWhen(states, events, m, k - 1);
      StepOf(states, events, k - 1);
      ScheduledStep(states[k - 1], events[k - 1]);
      StaysScheduledStep(states, events, m, k - 1);
    }
  }

  lemma ListingStep(s: Sys, e: Event, p: Poll)
    requires Lists(s, e, p)
    ensures Next(s, e).job == s.job
  {
  }

  /**
   A poll that returns the job claimed it exactly when, since its listing, the row was not taken
   out of scheduled, or was made scheduled again after the last time it was.
   */
  lemma HandOutIsClaimExactlyWhen(states: seq<Sys>, events: seq<Event>, p: Poll, k: nat) returns (m: int)
    requires IsRun(states, events) && k < |events| && HandsOut(states[k], events[k], p)
    ensures LastListing(states, events, p, m, k) && states[k + 1].handedOut == states[k].handedOut + [p]
    ensures Claims(states[k], events[k], p) <==> StaysScheduled(states, events, m, k)
  {
    hide StaysScheduled;
    StepOf(states, events, k);
    HandOutStep(states[k], events[k], p);
    hide Next;
    m := PollerWasListed(states, events, p, k);
    StepOf(states, events, m);
    ListingStep(states[m], events[m], p);
    ScheduledExactlyWhen(states, events, m, k);
  }

  lemma HandOutStep(s: Sys, e: Event, p: Poll)
    requires HandsOut(s, e, p)
    ensures Next(s, e).handedOut == s.handedOut + [p]
  {
  }

  /** Two polls list the job before either claims it: both return it, and only the first claimed it. */
  lemma HandedOutTwice(s0: Sys, s1: Sys, s2: Sys, s3: Sys, s4: Sys, p: Poll, q: Poll)
    requires s0 == Initial(false, false, "a", {}, 0, 0) && p == Poll("a", 1) && q == Poll("a", 2)
    requires s1 == Next(s0, Event(1, PollSelect(p))) && s2 == Next(s1, Event(2, PollSelect(q)))
    requires s3 == Next(s2, Event(3, PollUpdate(p))) && s4 == Next(s3, Event(4, PollUpdate(q)))
    ensures Claims(s2, Event(3, PollUpdate(p)), p)
    ensures HandsOut(s3, Event(4, PollUpdate(q)), q) && !Claims(s3, Event(4, PollUpdate(q)), q)
    ensures s4.handedOut == [p, q]
  {
    hide Next;
    ListStep(s0, 1, p);
    ListStep(s1, 2, q);
    ClaimingStep(s2, 3, p);
    EmptyHandedStep(s3, 4, q);
  }

  // ---------------------------------------------------------------------------
  // The lifecycle over a run
  // ---------------------------------------------------------------------------

  /** A job starts awaiting its contributor exactly if it is a print job and confirmation is on, and scheduled otherwise. */
  lemma SubmittedAs(isPrint: bool, confirmEnabled: bool, node: Node, own: set<Node>, deadline: Time, now: Time)
    ensures var j := Initial(isPrint, confirmEnabled, node, own, deadline, now).job;
            && j.status == (if isPrint && confirmEnabled then AwaitingConfirmation else Scheduled)
            && j.node == node && j.isPrint == isPrint && j.confirmationDeadline == (if isPrint && confirmEnabled then Some(deadline) else None)
  {
  }

  // ---------------------------------------------------------------------------
  // The timed passes
  // ---------------------------------------------------------------------------

  predicate ClaimsSome(s: Sys, e: Event) {
    e.step.PollUpdate? && Claims(s, e, e.step.poll)
  }

  /** c is the last claim before n. */
  ghost predicate LastClaim(states: seq<Sys>, events: seq<Event>, c: int, n: int)
    requires |states| == |events| + 1 && n <= |events|
  {
    0 <= c < n && ClaimsSome(states[c], events[c]) && forall i | c < i < n :: !ClaimsSome(states[i], events[i])
  }

  lemma DispatchClock(s: Sys, e: Event)
    ensures Next(s, e).dispatchedAt == if ClaimsSome(s, e) then e.now else s.dispatchedAt
  {
  }

  lemma DispatchTimeStep(s: Sys, e: Event)
    ensures Next(s, e).dispatchedAt == if ClaimsSome(s, e) then e.now else s.dispatchedAt
    ensures Next(s, e).job.status.Dispatched? ==> ClaimsSome(s, e) || s.job.status.Dispatched?
  {
    LifecycleStep(s, e);
    DispatchClock(s, e);
    hide Next;
  }

  lemma {:induction false} DispatchedAtLastClaim(states: seq<Sys>, events: seq<Event>, n: nat) returns (c: int)
    requires IsRun(states, events) && n <= |events| && states[n].job.status.Dispatched?
    ensures LastClaim(states, events, c, n) && states[n].dispatchedAt == events[c].now
  {
    hide Next, ClaimsSome;
    var m := n - 1;
    StepOf(states, events, m);
    DispatchTimeStep(states[m], events[m]);
    if ClaimsSome(states[m], events[m]) {
      c := m;
    } else {
      c := DispatchedAtLastClaim(states, events, m);
    }
  }

  /** The timeout pass returns a job to scheduled exactly when it is dispatched and its last claim is more than 120 seconds old. */
  lemma DispatchTimesOutExactlyWhen(states: seq<Sys>, events: seq<Event>, i: nat) returns (c: int)
    requires IsRun(states, events) && i < |events| && events[i].step == RunUpdate(ExpireDispatched)
    ensures states[i].job.status.Dispatched? ==> LastClaim(states, events, c, i)
    ensures states[i + 1].job.status ==
            if states[i].job.status.Dispatched? && events[i].now - events[c].now > 120 then Scheduled else states[i].job.status
  {
    hide Next, StartInv, FinishInv;
    StepOf(states, events, i);
    LifecycleStep(states[i], events[i]);
    c := -1;
    if states[i].job.status.Dispatched? {
      c := DispatchedAtLastClaim(states, events, i);
      TimesInOrder(states, events, i);
    }
  }

  /** How long a finished print has been waiting, and how long ago it was picked up, from the calls. */
  ghost predicate PickupTimes(s: Sys, picked: Option<Time>) {
    && (s.job.status.AwaitingPickup? ==> s.finishedBy.Some? && s.job.awaitingPickupAt == Some(s.finishedBy.value.stamp))
    && (s.job.status.PickedUp? ==> picked.Some? && s.job.pickedUpAt == picked)
  }

  /** The time of the last pick-up before n. */
  ghost function LastPickUp(states: seq<Sys>, events: seq<Event>, n: nat): Option<Time>
    requires |states| == |events| + 1 && n <= |events|
  {
    if n == 0 then None
    else if events[n - 1].step == RunUpdate(PickUp) && states[n - 1].job.status.AwaitingPickup? then Some(events[n - 1].now)
    else LastPickUp(states, events, n - 1)
  }

  lemma PickupStep(s: Sys, e: Event, picked: Option<Time>)
    requires PickupTimes(s, picked)
    ensures PickupTimes(Next(s, e), if e.step == RunUpdate(PickUp) && s.job.status.AwaitingPickup? then Some(e.now) else picked)
  {
    hide Next;
    LifecycleStep(s, e);
    FinishedByStep(s, e);
  }

  lemma FinishedByStep(s: Sys, e: Event)
    ensures Next(s, e).finishedBy ==
            if e.step.CommitComplete? && e.step.c in s.completions && s.job.status.Running? then Some(e.step.c) else s.finishedBy
  {
  }

  lemma {:induction false} RunKeepsPickupTimes(states: seq<Sys>, events: seq<Event>, n: nat)
    requires IsRun(states, events) && n <= |events|
    ensures PickupTimes(states[n], LastPickUp(states, events, n))
  {
    hide Next;
    if n > 0 {
      RunKeepsPickupTimes(states, events, n - 1);
      StepOf(states, events, n - 1);
      PickupStep(states[n - 1], events[n - 1], LastPickUp(states, events, n - 1));
    }
  }

  /** A print is a no-show exactly when it is called one more than 604800 seconds after the completing call's time. */
  lemma NoShowExactlyWhen(states: seq<Sys>, events: seq<Event>, i: nat)
    requires IsRun(states, events) && i < |events| && events[i].step == RunUpdate(NoShow)
    ensures states[i].job.status.AwaitingPickup? ==> states[i].finishedBy.Some?
    ensures states[i + 1].job.status ==
            if states[i].job.status.AwaitingPickup? && events[i].now - states[i].finishedBy.value.stamp > 604800
            then Failed else states[i].job.status
  {
    hide Next;
    StepOf(states, events, i);
    LifecycleStep(states[i], events[i]);
    RunKeepsPickupTimes(states, events, i);
  }

  /** A picked-up print is taken as delivered by the pass exactly when the pick-up is more than 604800 seconds ago. */
  lemma PickedUpExpiresExactlyWhen(states: seq<Sys>, events: seq<Event>, i: nat)
    requires IsRun(states, events) && i < |events| && events[i].step == RunUpdate(ExpirePickedUp)
    ensures states[i].job.status.PickedUp? ==> LastPickUp(states, events, i).Some?
    ensures states[i + 1].job.status ==
            if states[i].job.status.PickedUp? && events[i].now - LastPickUp(states, events, i).value > 604800
            then Delivered else states[i].job.status
  {
    hide Next;
    StepOf(states, events, i);
    LifecycleStep(states[i], events[i]);
    RunKeepsPickupTimes(states, events, i);
  }

  /** The deadline of the submission or of the last reroute that took effect. */
  ghost function LastDeadline(states: seq<Sys>, events: seq<Event>, n: nat): Option<Time>
    requires |states| == |events| + 1 && n <= |events|
  {
    if n == 0 then states[0].job.confirmationDeadline
    else if events[n - 1].step.CommitReroute? && Moves(states[n - 1], events[n - 1]).Some? && states[n - 1].job.isPrint
    then Some(events[n - 1].step.deadline)
    else LastDeadline(states, events, n - 1)
  }

  lemma DeadlineStep(s: Sys, e: Event)
    ensures Next(s, e).job.confirmationDeadline ==
            if e.step.CommitReroute? && Moves(s, e).Some? && s.job.isPrint then Some(e.step.deadline) else s.job.confirmationDeadline
    ensures Next(s, e).job.isPrint == s.job.isPrint
  {
    hide Next;
    LifecycleStep(s, e);
  }

  lemma {:induction false} DeadlineIsLastSet(states: seq<Sys>, events: seq<Event>, n: nat)
    requires IsRun(states, events) && n <= |events|
    ensures states[n].job.confirmationDeadline == LastDeadline(states, events, n)
    ensures states[n].job.status.AwaitingConfirmation? ==> states[n].job.isPrint && states[n].job.confirmationDeadline.Some?
  {
    hide Next, Moves;
    if n > 0 {
      DeadlineIsLastSet(states, events, n - 1);
      StepOf(states, events, n - 1);
      DeadlineStep(states[n - 1], events[n - 1]);
      AwaitsStep(states[n - 1], events[n - 1]);
    }
  }

  lemma AwaitsStep(s: Sys, e: Event)
    requires s.job.status.AwaitingConfirmation? ==> s.job.isPrint && s.job.confirmationDeadline.Some?
    ensures Next(s, e).job.status.AwaitingConfirmation? ==> Next(s, e).job.isPrint && Next(s, e).job.confirmationDeadline.Some?
  {
    hide Next;
    LifecycleStep(s, e);
  }

  /** An unanswered confirmation is taken as declined by the pass exactly after the deadline it was last given. */
  lemma ConfirmationExpiresExactlyWhen(states: seq<Sys>, events: seq<Event>, i: nat)
    requires IsRun(states, events) && i < |events| && events[i].step == RunUpdate(ExpireConfirmation)
    ensures states[i].job.status.AwaitingConfirmation? ==> LastDeadline(states, events, i).Some?
    ensures states[i + 1].job.status ==
            if states[i].job.status.AwaitingConfirmation? && events[i].now > LastDeadline(states, events, i).value
            then Declined else states[i].job.status
  {
    hide Next, Moves;
    StepOf(states, events, i);
    LifecycleStep(states[i], events[i]);
    DeadlineIsLastSet(states, events, i);
  }

  /** A no-show is contested exactly within 604800 seconds of being recorded, once. */
  lemma ContestedExactlyWhen(s: Sys, now: Time)
    ensures Next(s, Event(now, ContestNoShow)).disputed <==>
            || s.disputed
            || (s.job.status.Failed? && s.job.noShow && s.job.completedAt.Some? && now - s.job.completedAt.value < 604800)
  {
  }

  // ---------------------------------------------------------------------------
  // Disputes
  // ---------------------------------------------------------------------------

  lemma DisputeStep(s: Sys, e: Event)
    requires s.disputed ==> s.job.status.Failed? && s.job.noShow
    ensures Next(s, e).disputed ==> Next(s, e).job.status.Failed? && Next(s, e).job.noShow
  {
    if s.disputed {
      hide Next, Guard, Set;
      var u := RowChange(s, e);
      TerminalRowsAreFrozen(s.job, u, e.now);
    }
  }

  /** A dispute is only ever opened on a failed no-show, so never on a job that is completed or paid. */
  lemma {:induction false} DisputesAreNoShows(states: seq<Sys>, events: seq<Event>, n: nat)
    requires IsRun(states, events) && n < |states| && states[n].disputed
    ensures states[n].job.status.Failed? && states[n].job.noShow && states[n].job.isPrint && states[n].metering.None?
  {
    hide Next;
    DisputedImplies(states, events, n);
    RunKeepsShape(states, events, n);
    RunKeepsMeterInv(states, events, n);
  }

  lemma {:induction false} DisputedImplies(states: seq<Sys>, events: seq<Event>, n: nat)
    requires IsRun(states, events) && n < |states|
    ensures states[n].disputed ==> states[n].job.status.Failed? && states[n].job.noShow
  {
    hide Next;
    if n > 0 {
      DisputedImplies(states, events, n - 1);
      StepOf(states, events, n - 1);
      DisputeStep(states[n - 1], events[n - 1]);
    }
  }

  // ---------------------------------------------------------------------------
  // Declines
  // ---------------------------------------------------------------------------

  function Refused(s: Sys): set<Node> {
    s.declines + s.pending
  }

  /** Outside declined or failed status the job is not bound to a node that declined it. */
  predicate Unrefused(s: Sys) {
    s.job.status.Declined? || s.job.status.Failed? || s.job.node !in Refused(s)
  }

  /** What the worker read stays true enough until it commits. */
  predicate LoopInv(s: Sys) {
    match s.loop
    case Idle => true
    case Picked => s.job.status.Declined?
    case Rerouting(excluded, inFlight) => s.job.status.Declined? && Refused(s) <= excluded + inFlight && inFlight <= Refused(s)
    case PickedStale(stale) => s.job.node == stale
    case Rescheduling(stale, excluded, inFlight) =>
      s.job.node == stale && Refused(s) <= excluded + inFlight + {stale} && inFlight <= Refused(s)
  }

  /** The worker commits the job to a node whose decline was under way when it read the decline rows. */
  predicate RebindsBlindly(s: Sys, e: Event) {
    || (e.step.CommitReroute? && s.loop.Rerouting? && e.step.target !in s.loop.excluded && e.step.target in s.loop.inFlight)
    || (e.step.CommitReschedule? && s.loop.Rescheduling? && e.step.target != s.loop.stale && e.step.target !in s.loop.excluded
        && e.step.target in s.loop.inFlight && s.job.status.Scheduled?)
  }

  lemma BindLoop(s: Sys, step: Step)
    requires LoopInv(s)
    ensures LoopInv(LoopStep(s, step)) && Refused(LoopStep(s, step)) == Refused(s)
    ensures Unrefused(s) && !RebindsBlindly(s, Event(s.clock, step)) ==> Unrefused(LoopStep(s, step))
    ensures RebindsBlindly(s, Event(s.clock, step)) ==> !Unrefused(LoopStep(s, step))
  {
  }

  lemma BindNode(s: Sys, step: Step)
    requires LoopInv(s)
    ensures LoopInv(NodeStep(s, step))
    ensures Unrefused(s) ==> Unrefused(NodeStep(s, step))
  {
  }

  lemma BindOffice(s: Sys, step: Step)
    requires LoopInv(s)
    ensures LoopInv(OfficeStep(s, step))
    ensures Unrefused(s) ==> Unrefused(OfficeStep(s, step))
  {
  }

  lemma BindStep(s: Sys, e: Event)
    requires LoopInv(s)
    ensures LoopInv(Next(s, e))
    ensures Unrefused(s) && !RebindsBlindly(s, e) ==> Unrefused(Next(s, e))
    ensures RebindsBlindly(s, e) ==> !Unrefused(Next(s, e))
  {
    hide LoopStep;
    var s0 := s.(clock := e.now);
    var s1 := LoopStep(s0, e.step);
    BindLoop(s0, e.step);
    BindNode(s1, e.step);
    BindOffice(NodeStep(s1, e.step), e.step);
  }

  lemma {:induction false} RunKeepsLoopInv(states: seq<Sys>, events: seq<Event>, n: nat)
    requires IsRun(states, events) && n < |states|
    ensures LoopInv(states[n])
  {
    hide Next;
    if n > 0 {
      RunKeepsLoopInv(states, events, n - 1);
      StepOf(states, events, n - 1);
      BindStep(states[n - 1], events[n - 1]);
    }
  }

  lemma {:induction false} NoBlindRebindKeepsUnrefused(states: seq<Sys>, events: seq<Event>, n: nat)
    requires IsRun(states, events) && n < |states|
    requires forall i | 0 <= i < n :: !RebindsBlindly(states[i], events[i])
    ensures Unrefused(states[n])
  {
    hide Next;
    if n > 0 {
      NoBlindRebindKeepsUnrefused(states, events, n - 1);
      RunKeepsLoopInv(states, events, n - 1);
      StepOf(states, events, n - 1);
      BindStep(states[n - 1], events[n - 1]);
    }
  }

  /**
   A run never binds the job to a node that declined it exactly when the worker never picks a
   node whose decline was half done as it read the decline rows.
   */
  lemma NeverBoundToDeclinerExactlyWhen(states: seq<Sys>, events: seq<Event>)
    requires IsRun(states, events)
    ensures (forall n | 0 <= n < |states| :: Unrefused(states[n])) <==>
            (forall i | 0 <= i < |events| :: !RebindsBlindly(states[i], events[i]))
  {
    hide Next, Unrefused, RebindsBlindly;
    if forall i | 0 <= i < |events| :: !RebindsBlindly(states[i], events[i]) {
      forall n | 0 <= n < |states| ensures Unrefused(states[n]) {
        NoBlindRebindKeepsUnrefused(states, events, n);
      }
    }
    if i :| 0 <= i < |events| && RebindsBlindly(states[i], events[i]) {
      RunKeepsLoopInv(states, events, i);
      StepOf(states, events, i);
      BindStep(states[i], events[i]);
      assert !Unrefused(states[i + 1]);
    }
  }

  /** Every explicit decline so far is by a different node, and each of them was once given the job. */
  ghost predicate CountInv(s: Sys) {
    && s.explicit == |Refused(s)|
    && s.collisions == 0
    && Refused(s) <= s.bound && s.job.node in s.bound
  }

  lemma LoopFrame(s: Sys, step: Step)
    ensures var s' := LoopStep(s, step);
            && s'.declines == s.declines && s'.pending == s.pending && s'.explicit == s.explicit && s'.collisions == s.collisions
            && s.bound <= s'.bound && (s.job.node in s.bound ==> s'.job.node in s'.bound)
  {
  }

  lemma CountLoop(s: Sys, step: Step)
    requires CountInv(s)
    ensures CountInv(LoopStep(s, step))
  {
    hide LoopStep;
    LoopFrame(s, step);
  }

  /** The holder's own decline: one more decliner, one more explicit decline. */
  predicate DeclinesOnce(s: Sys, s': Sys) {
    && s.job.status in {AwaitingConfirmation, Scheduled, Dispatched}
    && Refused(s') == Refused(s) + {s.job.node} && s'.explicit == s.explicit + 1
  }

  /** Outside the worker, the holder, the bound nodes and the collisions stay; declines change by the holder's own at most. */
  predicate Tallied(s: Sys, s': Sys) {
    && s'.job.node == s.job.node && s'.bound == s.bound && s'.collisions == s.collisions
    && (DeclinesOnce(s, s') || (Refused(s') == Refused(s) && s'.explicit == s.explicit))
  }

  lemma NodeFrame(s: Sys, step: Step)
    ensures var s' := NodeStep(s, step);
            s'.job.node == s.job.node && s'.bound == s.bound && s'.collisions == s.collisions
    ensures !step.NodeDecline? && !step.RecordDecline? ==>
              var s' := NodeStep(s, step); s'.declines == s.declines && s'.pending == s.pending && s'.explicit == s.explicit
  {
  }

  lemma NodeTally(s: Sys, step: Step)
    ensures Tallied(s, NodeStep(s, step))
  {
    NodeFrame(s, step);
    var s' := NodeStep(s, step);
    match step
    case NodeDecline(n) =>
      assert s' != s ==> Refused(s') == Refused(s) + {n};
    case RecordDecline(n) =>
      assert Refused(s') == Refused(s);
    case _ =>
      hide NodeStep;
  }

  lemma OfficeTally(s: Sys, step: Step)
    requires Unrefused(s)
    ensures Tallied(s, OfficeStep(s, step))
  {
    var s' := OfficeStep(s, step);
    if step.UserDecline? && s' != s {
      assert Refused(s') == Refused(s) + {s.job.node};
    }
  }

  lemma TalliedKeepsCount(s: Sys, s': Sys)
    requires CountInv(s) && Unrefused(s) && Tallied(s, s')
    ensures CountInv(s')
  {
  }

  lemma CountStep(s: Sys, e: Event)
    requires LoopInv(s) && Unrefused(s) && CountInv(s) && !RebindsBlindly(s, e)
    ensures CountInv(Next(s, e))
  {
    hide LoopStep, NodeStep, OfficeStep, CountInv, Tallied;
    var s0 := s.(clock := e.now);
    var s1 := LoopStep(s0, e.step);
    assert CountInv(s0) by {
      CountClock(s, e.now);
    }
    BindLoop(s0, e.step);
    CountLoop(s0, e.step);
    BindNode(s1, e.step);
    var s2 := NodeStep(s1, e.step);
    NodeTally(s1, e.step);
    TalliedKeepsCount(s1, s2);
    OfficeTally(s2, e.step);
    TalliedKeepsCount(s2, OfficeStep(s2, e.step));
  }

  lemma CountClock(s: Sys, now: Time)
    requires CountInv(s)
    ensures CountInv(s.(clock := now))
  {
  }

  /**
   In such a run no portal decline fails on an existing row and each node declines explicitly
   at most once, so the declines are bounded by the nodes the job was ever given.
   */
  lemma {:induction false} DeclinesAreBounded(states: seq<Sys>, events: seq<Event>, n: nat)
    requires IsRun(states, events) && n < |states|
    requires forall i | 0 <= i < n :: !RebindsBlindly(states[i], events[i])
    ensures CountInv(states[n]) && states[n].explicit <= |states[n].bound|
  {
    hide Next, Unrefused, RebindsBlindly;
    if n > 0 {
      DeclinesAreBounded(states, events, n - 1);
      NoBlindRebindKeepsUnrefused(states, events, n - 1);
      RunKeepsLoopInv(states, events, n - 1);
      StepOf(states, events, n - 1);
      CountStep(states[n - 1], events[n - 1]);
    }
    SubsetSize(Refused(states[n]), states[n].bound);
  }

  lemma {:induction false} SubsetSize(a: set<Node>, b: set<Node>)
    requires a <= b
    ensures |a| <= |b|
  {
    if x :| x in a {
      SubsetSize(a - {x}, b - {x});
    }
  }

  /** The declines the worker's pending commit does not know of. */
  function Unseen(loop: Loop): set<Node> {
    if loop.Rerouting? || loop.Rescheduling? then loop.inFlight else {}
  }

  lemma UnseenStep(s: Sys, e: Event)
    ensures Unseen(Next(s, e).loop) <= Unseen(s.loop) + if e.step.ReadDeclines? || e.step.ReadStale? then s.pending else {}
  {
  }

  /** If no decline is ever half done when the worker reads the decline rows, it never rebinds blindly. */
  lemma {:induction false} AtomicDeclinesNeverRebindBlindly(states: seq<Sys>, events: seq<Event>, n: nat)
    requires IsRun(states, events) && n < |states|
    requires forall i | 0 <= i < |events| && (events[i].step.ReadDeclines? || events[i].step.ReadStale?) :: states[i].pending == {}
    ensures Unseen(states[n].loop) == {}
    ensures n < |events| ==> !RebindsBlindly(states[n], events[n])
  {
    hide Next;
    if n > 0 {
      AtomicDeclinesNeverRebindBlindly(states, events, n - 1);
      StepOf(states, events, n - 1);
      UnseenStep(states[n - 1], events[n - 1]);
    }
  }

  lemma OvertakenDecline(s: Sys, s1: Sys, s2: Sys, s3: Sys, n: Node, now: Time)
    requires s.job.isPrint && s.job.status.Declined? && s.loop == Rerouting({}, {n})
    requires s.declines == {} && s.pending == {n} && s.collisions == 0
    requires s1 == Next(s, Event(now, CommitReroute(n, now))) && s2 == Next(s1, Event(now, RecordDecline(n)))
    requires s3 == Next(s2, Event(now, UserDecline))
    ensures s2.job.status.AwaitingConfirmation? && s2.job.node in s2.declines
    ensures s3.collisions == 1 && s3.job.status.AwaitingConfirmation?
  {
    assert s1.job.status.AwaitingConfirmation? && s1.job.node == n && s1.declines == {};
    assert s2.job == s1.job && s2.declines == {n};
  }

  /** The decline's two statements leave room for the worker to hand the job straight back. */
  lemma DeclineMayBeOvertaken(s: Sys, s1: Sys, s2: Sys, s3: Sys, s4: Sys, s5: Sys, s6: Sys, now: Time)
    requires s.job.isPrint && s.job.status.Scheduled? && s.loop.Idle? && s.declines == {} && s.pending == {} && s.collisions == 0
    requires s1 == Next(s, Event(now, NodeDecline(s.job.node))) && s2 == Next(s1, Event(now, SelectDeclined))
    requires s3 == Next(s2, Event(now, ReadDeclines)) && s4 == Next(s3, Event(now, CommitReroute(s.job.node, now)))
    requires s5 == Next(s4, Event(now, RecordDecline(s.job.node))) && s6 == Next(s5, Event(now, UserDecline))
    ensures s5.job.status.AwaitingConfirmation? && s5.job.node in s5.declines
    ensures s6.collisions == 1 && s6.job.status.AwaitingConfirmation?
  {
    DeclineSteps(s, s1, s2, s3, now);
    hide LoopStep, NodeStep, OfficeStep;
    OvertakenDecline(s3, s4, s5, s6, s.job.node, now);
  }

  /** A deadline that passes records no decline, so the same node may be asked again and again. */
  lemma ExpiryMayCycle(s: Sys, s1: Sys, s2: Sys, s3: Sys, s4: Sys, now: Time, deadline: Time)
    requires s.job.isPrint && s.job.status.AwaitingConfirmation? && s.loop.Idle? && s.job.node !in s.declines
    requires s.job.confirmationDeadline.Some? && s.job.confirmationDeadline.value < now
    requires s1 == Next(s, Event(now, RunUpdate(ExpireConfirmation))) && s2 == Next(s1, Event(now, SelectDeclined))
    requires s3 == Next(s2, Event(now, ReadDeclines)) && s4 == Next(s3, Event(now, CommitReroute(s.job.node, deadline)))
    ensures s4.job == s.job.(confirmationDeadline := Some(deadline), updatedAt := now)
    ensures s4.declines == s.declines && s4.explicit == s.explicit && s4.loop.Idle?
  {
    assert s1.job.status.Declined?;
  }
}
