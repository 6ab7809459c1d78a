/**
 The two loop passes that move a job to another node, as they run against the jobs table and
 the registry.  JobProtocol splits them at their reads; here each runs undisturbed, so that
 what is committed can be tied to the decline rows and to placement.
 */
module Orchestrator {
  import opened Wrappers
  import J = JobRow
  import P = Placement

  /** The placement columns of a job row. */
  datatype Spec = Spec(workload: string, cpuCores: int, ramMB: int, storageGB: int, gpuRequired: bool, country: string, consumer: string)

  predicate IsPrint(spec: Spec) {
    spec.workload == "print_traditional" || spec.workload == "print_3d"
  }

  function RequestFor(spec: Spec, excluded: seq<string>): P.Request {
    P.Request(excluded, spec.consumer, spec.country, spec.gpuRequired, spec.cpuCores, spec.ramMB, spec.storageGB, spec.workload)
  }

  /** The node may take the job: it passes every filter and has not declined it. */
  predicate MayTake(nodes: map<string, P.Node>, id: string, spec: Spec, refused: set<string>) {
    id in nodes && id !in refused && P.Matches(nodes[id], RequestFor(spec, []))
  }

  lemma MayTakeIsMatching(nodes: map<string, P.Node>, n: P.Node, spec: Spec, excluded: seq<string>, refused: set<string>)
    requires n.id in nodes && nodes[n.id] == n && forall x :: x in excluded <==> x in refused
    ensures P.Matches(n, RequestFor(spec, excluded)) <==> MayTake(nodes, n.id, spec, refused)
  {
  }

  class Worker {
    const table: J.JobsTable
    const registry: P.NodeRegistry

    constructor (table: J.JobsTable, registry: P.NodeRegistry)
      ensures this.table == table && this.registry == registry
    {
      this.table, this.registry := table, registry;
    }

    /** The decline rows as the list of excluded ids. */
    static method Listed(rows: set<string>, first: seq<string>) returns (ids: seq<string>)
      ensures forall x :: x in ids <==> x in first || x in rows
    {
      ids := first;
      var left := rows;
      while left != {}
        invariant left <= rows && forall x :: x in ids <==> x in first || (x in rows && x !in left)
        decreases |left|
      {
        var x :| x in left;
        left := left - {x};
        ids := ids + [x];
      }
    }

    /** The highest-scoring node that may take the job; none exactly when no node may. */
    method BestNode(spec: Spec, excluded: seq<string>, ghost refused: set<string>, requester: P.Requester, now: real)
      returns (best: Option<P.Node>, ghost maxCPU: int)
      requires registry.Valid() && forall x :: x in excluded <==> x in refused
      ensures best.None? <==> forall id :: !MayTake(registry.nodes, id, spec, refused)
      ensures best.Some? ==> MayTake(registry.nodes, best.value.id, spec, refused) && registry.nodes[best.value.id] == best.value
      ensures maxCPU >= 1 && forall id | MayTake(registry.nodes, id, spec, refused) :: registry.nodes[id].hardware.cpuCores <= maxCPU
      ensures best.Some? ==> forall id | MayTake(registry.nodes, id, spec, refused) ::
                P.Score(best.value, maxCPU, requester, now) >= P.Score(registry.nodes[id], maxCPU, requester, now)
    {
      hide P.Score, P.MaxCPU, P.Matches, MayTake;
      var placed, pool := registry.Place(RequestFor(spec, excluded), 1, requester, now);
      forall n: P.Node | n.id in registry.nodes && registry.nodes[n.id] == n
        ensures n in pool <==> MayTake(registry.nodes, n.id, spec, refused)
      {
        MayTakeIsMatching(registry.nodes, n, spec, excluded, refused);
      }
      forall id | MayTake(registry.nodes, id, spec, refused) ensures id in registry.nodes && registry.nodes[id] in pool {
        OnlyNodes(registry.nodes, id, spec, refused);
      }
      maxCPU := P.MaxCPU(pool);
      if placed.None? {
        return None, maxCPU;
      }
      best := Some(placed.value[0]);
      assert placed.value[0] in placed.value;
      forall id | MayTake(registry.nodes, id, spec, refused)
        ensures P.Score(best.value, maxCPU, requester, now) >= P.Score(registry.nodes[id], maxCPU, requester, now)
      {
        assert registry.nodes[id] in pool;
        assert placed.value == [placed.value[0]];
      }
    }

    /**
     A declined job goes to a node that may take it, or fails when no node may; a job in any
     other status is left alone, and so is one whose print target turns out to have no printer.
     */
    method RerouteDeclinedJob(id: J.JobId, spec: Spec, requester: P.Requester, hasPrinter: bool, deadline: J.Time, now: J.Time)
      returns (ok: bool, target: Option<string>)
      requires id in table.jobs && id in table.declines && registry.Valid()
      requires table.jobs[id].isPrint <==> IsPrint(spec)
      modifies table, registry
      ensures table.declines == old(table.declines) && registry.Valid() && registry.nodes.Keys == old(registry.nodes).Keys
      ensures var refused := old(table.declines)[id];
              && (target.Some? ==> MayTake(old(registry.nodes), target.value, spec, refused))
              && (target.None? <==> forall n :: !MayTake(old(registry.nodes), n, spec, refused))
      ensures !ok <==> target.Some? && IsPrint(spec) && !hasPrinter
      ensures table.jobs ==
              if !ok then old(table.jobs)
              else if target.None? then old(table.jobs)[id := J.Apply(old(table.jobs)[id], J.RerouteFailed, now)]
              else old(table.jobs)[id := J.Apply(old(table.jobs)[id], J.RerouteTo(target.value, deadline), now)]
    {
      hide MayTake;
      var previous := table.jobs[id].node;
      var excluded := Listed(table.declines[id], []);
      var best, _ := BestNode(spec, excluded, table.declines[id], requester, now as real);
      if best.None? {
        var flipped := Commit(id, J.RerouteFailed, now);
        if flipped && previous != "" {
          registry.AddInFlight(previous, -1);
        }
        return true, None;
      }
      target := Some(best.value.id);
      if IsPrint(spec) && !hasPrinter {
        return false, target;
      }
      var flipped := Commit(id, J.RerouteTo(best.value.id, deadline), now);
      if flipped {
        registry.AddInFlight(best.value.id, 1);
        if previous != "" {
          registry.AddInFlight(previous, -1);
        }
      }
      return true, target;
    }

    /** A scheduled compute or storage job leaves its node for one that may take it; with none it stays where it is. */
    method RescheduleStaleJob(id: J.JobId, spec: Spec, oldNode: string, requester: P.Requester, now: J.Time)
      returns (target: Option<string>)
      requires id in table.jobs && id in table.declines && registry.Valid()
      modifies table, registry
      ensures table.declines == old(table.declines) && registry.Valid() && registry.nodes.Keys == old(registry.nodes).Keys
      ensures var refused := old(table.declines)[id] + {oldNode};
              && (target.Some? ==> !IsPrint(spec) && target.value != oldNode && MayTake(old(registry.nodes), target.value, spec, refused))
              && (target.None? <==> IsPrint(spec) || forall n :: !MayTake(old(registry.nodes), n, spec, refused))
      ensures table.jobs ==
              if target.None? then old(table.jobs)
              else old(table.jobs)[id := J.Apply(old(table.jobs)[id], J.RescheduleTo(oldNode, target.value), now)]
    {
      if IsPrint(spec) {
        return None;
      }
      var excluded := Listed(table.declines[id], [oldNode]);
      var best, _ := BestNode(spec, excluded, table.declines[id] + {oldNode}, requester, now as real);
      if best.None? {
        return None;
      }
      hide MayTake;
      target := Some(best.value.id);
      var flipped := Commit(id, J.RescheduleTo(oldNode, best.value.id), now);
      if flipped {
        registry.AddInFlight(best.value.id, 1);
        registry.AddInFlight(oldNode, -1);
      }
    }

    /** The final guarded UPDATE. */
    method Commit(id: J.JobId, u: J.Update, now: J.Time) returns (flipped: bool)
      requires id in table.jobs
      requires u.RerouteFailed? || u.RerouteTo? || u.RescheduleTo?
      modifies table
      ensures table.jobs == old(table.jobs)[id := J.Apply(old(table.jobs)[id], u, now)] && table.declines == old(table.declines)
      ensures flipped <==> J.Guard(old(table.jobs)[id], u, now)
    {
      var j := table.jobs[id];
      flipped := if u.RescheduleTo? then j.status == J.Scheduled && j.node == u.from else j.status == J.Declined;
      if !flipped {
        assert table.jobs[id := j] == table.jobs;
        return;
      }
      match u {
        case RerouteFailed =>
          j := j.(status := J.Failed, updatedAt := now);
        case RerouteTo(target, deadline) =>
          if j.isPrint {
            j := j.(node := target, confirmationDeadline := Some(deadline), status := J.AwaitingConfirmation, updatedAt := now);
          } else {
            j := j.(node := target, status := J.Scheduled, updatedAt := now);
          }
        case RescheduleTo(_, target) =>
          j := j.(node := target, updatedAt := now);
      }
      table.jobs := table.jobs[id := j];
    }
  }

  lemma OnlyNodes(nodes: map<string, P.Node>, id: string, spec: Spec, refused: set<string>)
    ensures MayTake(nodes, id, spec, refused) ==> id in nodes
  {
  }
}
