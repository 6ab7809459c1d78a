/**
 One row of the jobs table.  Every actor moves it through guarded UPDATEs: a WHERE clause
 that must still hold and a SET list, applied as one atomic compare-and-set.
 */
module JobRow {
  import opened Wrappers

  type Node = string
  /** Seconds on the database clock. */
  type Time = int

  const DISPATCH_TIMEOUT: int := 120
  const DISPUTE_WINDOW: int := 7 * 24 * 3600

  datatype Status =
    | AwaitingConfirmation | Scheduled | Dispatched | Running | Declined
    | AwaitingPickup | PickedUp | Delivered | Completed | Failed

  datatype Job = Job(
    isPrint: bool, status: Status, node: Node, updatedAt: Time, startedAt: Option<Time>, completedAt: Option<Time>,
    awaitingPickupAt: Option<Time>, pickedUpAt: Option<Time>, confirmationDeadline: Option<Time>, exitCode: Option<int>, noShow: bool)

  /** The placement transaction: print jobs wait for the contributor when confirmation is on. */
  function Submit(isPrint: bool, confirmEnabled: bool, node: Node, deadline: Time, now: Time): Job {
    if isPrint && confirmEnabled
    then Job(isPrint, AwaitingConfirmation, node, now, None, None, None, None, Some(deadline), None, false)
    else Job(isPrint, Scheduled, node, now, None, None, None, None, None, None, false)
  }

  datatype Update =
    | Confirm
    | DeclineOnPortal
    | DeclineByNode(who: Node)
    | Dispatch
    | Start
    | Report(who: Node, reported: Time)
    | Complete(exit: Option<int>, stamp: Time)
    | PickUp
    | Deliver
    | NoShow
    | ExpireConfirmation
    | ExpireDispatched
    | ExpirePickedUp
    | RerouteTo(target: Node, deadline: Time)
    | RerouteFailed
    | RescheduleTo(from: Node, target: Node)

  function Max(a: Time, b: Time): Time { if a < b then b else a }

  function Min(a: Time, b: Time): Time { if a < b then a else b }

  /** The status a reported exit code leads to. */
  function OutcomeOf(isPrint: bool, exit: Option<int>): Status {
    if exit != Some(0) then Failed else if isPrint then AwaitingPickup else Completed
  }

  /** The WHERE clause. */
  predicate Guard(j: Job, u: Update, now: Time) {
    match u
    case Confirm => j.status.AwaitingConfirmation?
    case DeclineOnPortal => j.status.AwaitingConfirmation?
    case DeclineByNode(who) => j.node == who && (j.status.Scheduled? || j.status.Dispatched?)
    case Dispatch => j.status.Scheduled?
    case Start => j.status.Dispatched?
    case Report(who, _) => j.node == who && j.status.Dispatched?
    case Complete(_, _) => j.status.Running?
    case PickUp => j.status.AwaitingPickup?
    case Deliver => j.status.PickedUp?
    case NoShow => j.status.AwaitingPickup? && j.awaitingPickupAt.Some? && j.awaitingPickupAt.value < now - DISPUTE_WINDOW
    case ExpireConfirmation => j.status.AwaitingConfirmation? && j.confirmationDeadline.Some? && j.confirmationDeadline.value < now
    case ExpireDispatched => j.status.Dispatched? && j.updatedAt < now - DISPATCH_TIMEOUT
    case ExpirePickedUp => j.status.PickedUp? && j.pickedUpAt.Some? && j.pickedUpAt.value < now - DISPUTE_WINDOW
    case RerouteTo(_, _) => j.status.Declined?
    case RerouteFailed => j.status.Declined?
    case RescheduleTo(from, _) => j.status.Scheduled? && j.node == from
  }

  /** The SET list. */
  function Set(j: Job, u: Update, now: Time): Job {
    match u
    case Confirm => j.(status := Scheduled)
    case DeclineOnPortal => j.(status := Declined)
    case DeclineByNode(_) => j.(status := Declined, updatedAt := now)
    case Dispatch => j.(status := Dispatched, updatedAt := now)
    case Start => j.(status := Running, startedAt := Some(now), updatedAt := now)
    case Report(_, reported) =>
      var started := if j.startedAt.Some? then j.startedAt.value else Min(Max(reported, j.updatedAt), now);
      j.(status := Running, startedAt := Some(started), updatedAt := now)
    case Complete(exit, stamp) =>
      var status := OutcomeOf(j.isPrint, exit);
      j.(status := status, exitCode := exit, updatedAt := now,
         completedAt := if status.AwaitingPickup? then None else Some(stamp),
         awaitingPickupAt := if status.AwaitingPickup? then Some(stamp) else None)
    case PickUp => j.(status := PickedUp, pickedUpAt := Some(now), updatedAt := now)
    case Deliver => j.(status := Delivered, completedAt := Some(now), updatedAt := now)
    case NoShow => j.(status := Failed, noShow := true, completedAt := Some(now), updatedAt := now)
    case ExpireConfirmation => j.(status := Declined, updatedAt := now)
    case ExpireDispatched => j.(status := Scheduled, updatedAt := now)
    case ExpirePickedUp => j.(status := Delivered, completedAt := Some(now), updatedAt := now)
    case RerouteTo(target, deadline) =>
      if j.isPrint then j.(node := target, status := AwaitingConfirmation, confirmationDeadline := Some(deadline), updatedAt := now)
      else j.(node := target, status := Scheduled, updatedAt := now)
    case RerouteFailed => j.(status := Failed, updatedAt := now)
    case RescheduleTo(_, target) => j.(node := target, updatedAt := now)
  }

  function Apply(j: Job, u: Update, now: Time): Job {
    if Guard(j, u, now) then Set(j, u, now) else j
  }

  predicate Terminal(j: Job) {
    j.status.Completed? || j.status.Failed? || j.status.Delivered?
  }

  /** The job has been handed over for good: it runs, ran, or ended after running. */
  predicate Started(j: Job) {
    j.startedAt.Some?
  }

  /** Which statuses go with a recorded start. */
  predicate Shape(j: Job) {
    && (Started(j) ==> j.status in {Running, AwaitingPickup, PickedUp, Delivered, Completed, Failed})
    && (j.status in {Running, AwaitingPickup, PickedUp, Delivered, Completed} ==> Started(j))
    && (j.status.Completed? ==> !j.isPrint && j.exitCode == Some(0) && j.completedAt.Some?)
    && (j.status.Delivered? ==> j.isPrint && j.completedAt.Some?)
    && (j.status in {AwaitingPickup, PickedUp} ==> j.isPrint && j.exitCode == Some(0))
    && (j.noShow ==> j.status.Failed? && j.isPrint && j.completedAt.Some?)
    && (j.completedAt.Some? ==> Terminal(j))
  }

  lemma ApplyKeepsShape(j: Job, u: Update, now: Time)
    requires Shape(j)
    ensures Shape(Apply(j, u, now))
  {
  }

  /** No UPDATE of any actor touches a row in a terminal status. */
  lemma TerminalRowsAreFrozen(j: Job, u: Update, now: Time)
    requires Terminal(j)
    ensures !Guard(j, u, now) && Apply(j, u, now) == j
  {
  }

  /** Once a start is recorded, neither it nor the node changes. */
  lemma StartFixesNode(j: Job, u: Update, now: Time)
    requires Shape(j) && Started(j)
    ensures var j' := Apply(j, u, now); Started(j') && j'.startedAt == j.startedAt && j'.node == j.node
  {
  }

  /** Only the two loop commits move a job to another node. */
  lemma OnlyTheLoopRebinds(j: Job, u: Update, now: Time)
    requires !u.RerouteTo? && !u.RescheduleTo?
    ensures Apply(j, u, now).node == j.node
  {
  }

  // ---------------------------------------------------------------------------
  // The lifecycle, written out
  // ---------------------------------------------------------------------------

  /** The status an update moves the row to, if it moves it: two minutes for a dispatch, seven days for a pick-up. */
  function Target(j: Job, u: Update, now: Time): Option<Status> {
    match j.status
    case AwaitingConfirmation =>
      if u.Confirm? then Some(Scheduled)
      else if u.DeclineOnPortal? then Some(Declined)
      else if u.ExpireConfirmation? && j.confirmationDeadline.Some? && now > j.confirmationDeadline.value then Some(Declined)
      else None
    case Scheduled =>
      if u.Dispatch? then Some(Dispatched)
      else if u == DeclineByNode(j.node) then Some(Declined) else None
    case Dispatched =>
      if u.Start? || (u.Report? && u.who == j.node) then Some(Running)
      else if u == DeclineByNode(j.node) then Some(Declined)
      else if u.ExpireDispatched? && now - j.updatedAt > 120 then Some(Scheduled) else None
    case Running =>
      if !u.Complete? then None
      else if u.exit == Some(0) then Some(if j.isPrint then AwaitingPickup else Completed) else Some(Failed)
    case Declined =>
      if u.RerouteTo? then Some(if j.isPrint then AwaitingConfirmation else Scheduled)
      else if u.RerouteFailed? then Some(Failed) else None
    case AwaitingPickup =>
      if u.PickUp? then Some(PickedUp)
      else if u.NoShow? && j.awaitingPickupAt.Some? && now - j.awaitingPickupAt.value > 604800 then Some(Failed) else None
    case PickedUp =>
      if u.Deliver? then Some(Delivered)
      else if u.ExpirePickedUp? && j.pickedUpAt.Some? && now - j.pickedUpAt.value > 604800 then Some(Delivered) else None
    case Delivered => None
    case Completed => None
    case Failed => None
  }

  /** What goes with a move of the status: whose start, whose end, which deadline and node. */
  predicate Stamped(j: Job, j': Job, u: Update, now: Time) {
    && j'.isPrint == j.isPrint
    && j'.node == (if u.RerouteTo? then u.target else j.node)
    && j'.confirmationDeadline == (if u.RerouteTo? && j.isPrint then Some(u.deadline) else j.confirmationDeadline)
    && (u.Dispatch? || u.Start? || u.Report? || u.ExpireDispatched? ==> j'.updatedAt == now)
    && (u.Start? ==> j'.startedAt == Some(now))
    && (u.Report? && j.startedAt.None? ==>
          && j'.startedAt.Some? && (u.reported < j.updatedAt <= now ==> j'.startedAt.value == j.updatedAt)
          && (j.updatedAt <= u.reported <= now ==> j'.startedAt.value == u.reported)
          && (now < u.reported ==> j'.startedAt.value == now))
    && (u.Complete? ==> j'.exitCode == u.exit && j'.updatedAt == now
                        && j'.completedAt == (if j'.status.AwaitingPickup? then None else Some(u.stamp))
                        && j'.awaitingPickupAt == (if j'.status.AwaitingPickup? then Some(u.stamp) else None))
    && (!u.Complete? ==> j'.exitCode == j.exitCode && j'.awaitingPickupAt == j.awaitingPickupAt)
    && (!u.Start? && !u.Report? ==> j'.startedAt == j.startedAt)
    && j'.pickedUpAt == (if u.PickUp? then Some(now) else j.pickedUpAt)
    && (u.Deliver? || u.ExpirePickedUp? || u.NoShow? ==> j'.completedAt == Some(now))
    && (!u.Complete? && !u.Deliver? && !u.ExpirePickedUp? && !u.NoShow? ==> j'.completedAt == j.completedAt)
    && j'.noShow == (j.noShow || u.NoShow?)
  }

  /** Every update moves the status as that table says and in no other way; the one that keeps it is the rebinding of a scheduled job. */
  lemma MovesAsTabled(j: Job, u: Update, now: Time)
    ensures var j' := Apply(j, u, now);
            var target := Target(j, u, now);
            && (target.Some? ==> j'.status == target.value && j'.status != j.status && Stamped(j, j', u, now))
            && (target.None? ==>
                  j' == if u.RescheduleTo? && j.status.Scheduled? && j.node == u.from then j.(node := u.target, updatedAt := now) else j)
  {
  }

  // ---------------------------------------------------------------------------
  // The table, updated in place
  // ---------------------------------------------------------------------------

  type JobId = string

  datatype CompleteError = UnknownJob | NotRunning

  class JobsTable {
    var jobs: map<JobId, Job>
    var declines: map<JobId, set<Node>>

    constructor ()
      ensures jobs == map[] && declines == map[]
    {
      jobs, declines := map[], map[];
    }

    /** The row after an update: only this id may change. */
    ghost predicate Updated(before: map<JobId, Job>, id: JobId, u: Update, now: Time)
      reads this
    {
      jobs == if id in before then before[id := Apply(before[id], u, now)] else before
    }

    method ExpireDispatchedJob(id: JobId, now: Time) returns (flipped: bool)
      modifies this
      ensures Updated(old(jobs), id, ExpireDispatched, now) && declines == old(declines)
      ensures flipped <==> id in old(jobs) && Guard(old(jobs)[id], ExpireDispatched, now)
    {
      flipped := false;
      if id in jobs {
        var j := jobs[id];
        if j.status == Dispatched && j.updatedAt < now - DISPATCH_TIMEOUT {
          jobs := jobs[id := j.(status := Scheduled, updatedAt := now)];
          flipped := true;
        } else {
          assert jobs[id := j] == jobs;
        }
      }
    }

    method ExpireConfirmationOf(id: JobId, now: Time) returns (flipped: bool)
      modifies this
      ensures Updated(old(jobs), id, ExpireConfirmation, now) && declines == old(declines)
      ensures flipped <==> id in old(jobs) && Guard(old(jobs)[id], ExpireConfirmation, now)
    {
      flipped := false;
      if id in jobs {
        var j := jobs[id];
        if j.status == AwaitingConfirmation && j.confirmationDeadline.Some? && j.confirmationDeadline.value < now {
          jobs := jobs[id := j.(status := Declined, updatedAt := now)];
          flipped := true;
        } else {
          assert jobs[id := j] == jobs;
        }
      }
    }

    /** The report is the evidence that a dispatched job ran; the claimed start is clamped to [dispatch, now]. */
    method MarkReportedRunning(id: JobId, who: Node, reported: Time, now: Time)
      modifies this
      ensures Updated(old(jobs), id, Report(who, reported), now) && declines == old(declines)
    {
      if id in jobs {
        var j := jobs[id];
        if j.node == who && j.status == Dispatched {
          var started := j.startedAt;
          if started.None? {
            var floor := if reported < j.updatedAt then j.updatedAt else reported;
            started := Some(if floor < now then floor else now);
          }
          jobs := jobs[id := j.(status := Running, startedAt := started, updatedAt := now)];
        } else {
          assert jobs[id := j] == jobs;
        }
      }
    }

    /** The outcome is derived and the time stamped before the running-guarded UPDATE. */
    method CompleteJob(id: JobId, exit: Option<int>, stamp: Time, now: Time) returns (meter: bool, error: Option<CompleteError>)
      modifies this
      ensures Updated(old(jobs), id, Complete(exit, stamp), now) && declines == old(declines)
      ensures error == Some(UnknownJob) <==> id !in old(jobs)
      ensures error == Some(NotRunning) <==> id in old(jobs) && !Guard(old(jobs)[id], Complete(exit, stamp), now)
      ensures meter <==> error.None? && jobs[id].status.Completed?
    {
      if id !in jobs {
        return false, Some(UnknownJob);
      }
      var j := jobs[id];
      var status, shouldMeter := Completed, false;
      if exit.None? || exit.value != 0 {
        status := Failed;
      } else if j.isPrint {
        status := AwaitingPickup;
      } else {
        shouldMeter := true;
      }
      var completedAt, awaitingPickupAt: Option<Time> := None, None;
      if status == Completed || status == Failed {
        completedAt := Some(stamp);
      }
      if status == AwaitingPickup {
        awaitingPickupAt := Some(stamp);
      }
      if j.status != Running {
        assert jobs[id := j] == jobs;
        return false, Some(NotRunning);
      }
      jobs := jobs[id := j.(status := status, completedAt := completedAt, awaitingPickupAt := awaitingPickupAt,
                            updatedAt := now, exitCode := exit)];
      return shouldMeter, None;
    }

    /** The portal's decline: status and decline row in one transaction, rolled back when the row already exists. */
    method DeclineFromPortal(id: JobId) returns (ok: bool)
      requires id in jobs && id in declines
      modifies this
      ensures ok <==> old(jobs)[id].status.AwaitingConfirmation? && old(jobs)[id].node !in old(declines)[id]
      ensures jobs == if ok then old(jobs)[id := Set(old(jobs)[id], DeclineOnPortal, 0)] else old(jobs)
      ensures declines == if ok then old(declines)[id := old(declines)[id] + {old(jobs)[id].node}] else old(declines)
    {
      var j := jobs[id];
      if j.status != AwaitingConfirmation || j.node in declines[id] {
        return false;
      }
      jobs := jobs[id := j.(status := Declined)];
      declines := declines[id := declines[id] + {j.node}];
      ok := true;
    }

    /**
     Claims the jobs that an earlier SELECT listed for the node.  The UPDATE re-checks the
     status but not the node, so a job rebound in between is claimed as well.
     */
    method DispatchListed(ids: seq<JobId>, blocked: set<JobId>, now: Time)
      modifies this
      ensures declines == old(declines) && jobs.Keys == old(jobs).Keys
      ensures forall id | id in jobs ::
                jobs[id] == if id in ids && id !in blocked then Apply(old(jobs)[id], Dispatch, now) else old(jobs)[id]
    {
      for i := 0 to |ids|
        invariant declines == old(declines) && jobs.Keys == old(jobs).Keys
        invariant forall id | id in jobs ::
                    jobs[id] == if id in ids[..i] && id !in blocked then Apply(old(jobs)[id], Dispatch, now) else old(jobs)[id]
      {
        var id := ids[i];
        if id in jobs && id !in blocked && jobs[id].status == Scheduled {
          jobs := jobs[id := jobs[id].(status := Dispatched, updatedAt := now)];
        }
      }
    }
  }
}
