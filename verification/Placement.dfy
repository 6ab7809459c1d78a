/**
 Placement: the registry filters the online nodes by hard requirements, the scheduler scores
 what is left and returns the best.  Scores are reals, times are seconds.
 */
module Placement {
  import opened Wrappers
  import opened Sequences

  datatype Hardware = Hardware(cpuCores: int, ramMB: int, storageGB: int, gpuPresent: bool)

  datatype OptOut = OptOut(compute: bool, storage: bool, printing: bool, hasEnabledPrinter: bool)

  datatype Node = Node(
    id: string, participant: string, nodeClass: string, country: string, region: string, hardware: Hardware,
    lastHeartbeat: real, status: string, optOut: OptOut,
    ownerActive: bool, cpuUtilPct: real, loadSampledAt: Option<real>, inFlight: int)

  datatype Request = Request(
    excluded: seq<string>, consumer: string, country: string, gpuRequired: bool,
    cpuCores: int, ramMB: int, storageGB: int, workload: string)

  datatype Requester = Requester(region: string, country: string)

  // ---------------------------------------------------------------------------
  // Hard filters
  // ---------------------------------------------------------------------------

  datatype Category = Compute | Storage | Print

  function CategoryOf(workload: string): Option<Category> {
    if workload in {"app_hosting", "batch_compute", "ai_inference", "cdn_edge"} then Some(Compute)
    else if workload == "object_storage" then Some(Storage)
    else if workload in {"print_traditional", "print_3d"} then Some(Print)
    else None
  }

  /** A node serves the categories it has not opted out of; printing also takes a printer. */
  predicate Serves(o: OptOut, category: Category) {
    match category
    case Compute => !o.compute
    case Storage => !o.storage
    case Print => !o.printing && o.hasEnabledPrinter
  }

  predicate Matches(n: Node, req: Request) {
    && n.id !in req.excluded
    && (req.consumer != "" ==> n.participant != req.consumer)
    && n.status == "online"
    && (req.country != "" ==> n.country == req.country)
    && (req.gpuRequired ==> n.hardware.gpuPresent)
    && n.hardware.cpuCores >= req.cpuCores && n.hardware.ramMB >= req.ramMB && n.hardware.storageGB >= req.storageGB
    && (CategoryOf(req.workload).Some? ==> Serves(n.optOut, CategoryOf(req.workload).value))
  }

  /** Every filter, on the node and the request. */
  lemma FiltersWrittenOut(n: Node, req: Request)
    ensures Matches(n, req) <==>
            && n.status == "online" && n.id !in req.excluded
            && (req.consumer == "" || n.participant != req.consumer)
            && (req.country == "" || n.country == req.country)
            && (!req.gpuRequired || n.hardware.gpuPresent)
            && req.cpuCores <= n.hardware.cpuCores && req.ramMB <= n.hardware.ramMB && req.storageGB <= n.hardware.storageGB
            && (req.workload in {"app_hosting", "batch_compute", "ai_inference", "cdn_edge"} ==> !n.optOut.compute)
            && (req.workload == "object_storage" ==> !n.optOut.storage)
            && (req.workload in {"print_traditional", "print_3d"} ==> !n.optOut.printing && n.optOut.hasEnabledPrinter)
  {
  }

  // ---------------------------------------------------------------------------
  // Scores
  // ---------------------------------------------------------------------------

  const STALE_CUTOFF: real := 1800.0
  const W_LOCALITY: real := 10.0
  const W_IDLE: real := 2.0
  const PER_IN_FLIGHT: real := 0.5
  const LOAD_SAMPLE_TTL: real := 180.0

  function ClassScore(nodeClass: string): (r: real)
    ensures 0.0 <= r <= 4.0 && (nodeClass in {"A", "B", "C", "D"} <==> r >= 1.0)
  {
    if nodeClass == "A" then 4.0 else if nodeClass == "B" then 3.0 else if nodeClass == "C" then 2.0 else if nodeClass == "D" then 1.0 else 0.0
  }

  function Freshness(lastHeartbeat: real, now: real): (r: real)
    ensures 0.0 <= r <= 1.0
    ensures r == 1.0 <==> lastHeartbeat >= now
    ensures r == 0.0 <==> lastHeartbeat <= now - STALE_CUTOFF
  {
    var age := now - lastHeartbeat;
    if age <= 0.0 then 1.0 else if age >= STALE_CUTOFF then 0.0 else 1.0 - age / STALE_CUTOFF
  }

  function Locality(n: Node, requester: Requester): real {
    if n.region != "" && n.region == requester.region then 0.6
    else if requester.country != "" && n.country == requester.country then 0.3
    else 0.0
  }

  function Idle(n: Node, now: real): (r: real)
    ensures 0.0 <= r <= 1.0
    ensures n.ownerActive || n.loadSampledAt.None? || n.loadSampledAt.value < now - LOAD_SAMPLE_TTL ==> r == 0.0
  {
    if n.ownerActive || n.loadSampledAt.None? || now - n.loadSampledAt.value > LOAD_SAMPLE_TTL then 0.0
    else
      var util := n.cpuUtilPct / 100.0;
      if util < 0.0 then 1.0 else if util > 1.0 then 0.0 else 1.0 - util
  }

  /** The terms the platform certifies or measures itself. */
  function Certified(n: Node, maxCPU: int, now: real): real
    requires maxCPU >= 1
  {
    ClassScore(n.nodeClass) + Freshness(n.lastHeartbeat, now) + n.hardware.cpuCores as real / maxCPU as real
  }

  /** The advisory terms: idleness a node reports itself, and its placements in flight. */
  function Load(n: Node, now: real): real {
    W_IDLE * Idle(n, now) - PER_IN_FLIGHT * n.inFlight as real
  }

  function Score(n: Node, maxCPU: int, requester: Requester, now: real): real
    requires maxCPU >= 1
  {
    Certified(n, maxCPU, now) + W_LOCALITY * Locality(n, requester) + Load(n, now)
  }

  function MaxCPU(pool: seq<Node>): (m: int)
    ensures m >= 1 && forall n | n in pool :: n.hardware.cpuCores <= m
    ensures m == 1 || exists n | n in pool :: n.hardware.cpuCores == m
  {
    if pool == [] then 1
    else
      var m := MaxCPU(pool[..|pool| - 1]);
      assert forall n | n in pool :: n in pool[..|pool| - 1] || n == pool[|pool| - 1];
      if pool[|pool| - 1].hardware.cpuCores > m then pool[|pool| - 1].hardware.cpuCores else m
  }

  // ---------------------------------------------------------------------------
  // What the weights promise
  // ---------------------------------------------------------------------------

  lemma CertifiedRange(n: Node, maxCPU: int, now: real)
    requires 0 <= n.hardware.cpuCores <= maxCPU && maxCPU >= 1
    ensures ClassScore(n.nodeClass) <= Certified(n, maxCPU, now) <= 6.0
  {
    var capacity := n.hardware.cpuCores as real / maxCPU as real;
    assert 0.0 <= capacity <= 1.0;
  }

  /** The lead in load terms that a same-region node makes up against a node of any class. */
  function RegionMargin(near: Node, far: Node, requester: Requester): real {
    ClassScore(near.nodeClass) - W_LOCALITY * Locality(far, requester)
  }

  /** Below that lead the same-region node wins, whatever else is known of the two. */
  lemma RegionWins(near: Node, far: Node, maxCPU: int, requester: Requester, now: real)
    requires maxCPU >= 1 && 0 <= near.hardware.cpuCores <= maxCPU && 0 <= far.hardware.cpuCores <= maxCPU
    requires Locality(near, requester) == 0.6
    requires Load(far, now) - Load(near, now) < RegionMargin(near, far, requester)
    ensures Score(near, maxCPU, requester, now) > Score(far, maxCPU, requester, now)
  {
    CertifiedRange(near, maxCPU, now);
    CertifiedRange(far, maxCPU, now);
  }

  /** The same node with other certified facts. */
  function Certify(n: Node, nodeClass: string, heartbeat: real, cores: int): Node {
    n.(nodeClass := nodeClass, lastHeartbeat := heartbeat, hardware := n.hardware.(cpuCores := cores))
  }

  /** The first node outscores the second, whatever their heartbeats and cores and the second one's class. */
  ghost predicate BeatsAnyClass(near: Node, far: Node, requester: Requester, now: real) {
    forall nodeClass, h, h', c, c', maxCPU | maxCPU >= 1 && 0 <= c <= maxCPU && 0 <= c' <= maxCPU ::
      Score(Certify(near, near.nodeClass, h, c), maxCPU, requester, now) > Score(Certify(far, nodeClass, h', c'), maxCPU, requester, now)
  }

  /**
   A same-region node beats a node of any class exactly when the other's lead in load terms is
   below its own class score, less three points if the other is in the requester's country.
   */
  lemma RegionWinsExactlyWhen(near: Node, far: Node, requester: Requester, now: real)
    requires Locality(near, requester) == 0.6
    ensures BeatsAnyClass(near, far, requester, now) <==> Load(far, now) - Load(near, now) < RegionMargin(near, far, requester)
  {
    if Load(far, now) - Load(near, now) < RegionMargin(near, far, requester) {
      forall nodeClass, h, h', c, c', maxCPU | maxCPU >= 1 && 0 <= c <= maxCPU && 0 <= c' <= maxCPU
        ensures Score(Certify(near, near.nodeClass, h, c), maxCPU, requester, now) >
                Score(Certify(far, nodeClass, h', c'), maxCPU, requester, now)
      {
        SameSoftTerms(near, near.nodeClass, h, c, requester, now);
        SameSoftTerms(far, nodeClass, h', c', requester, now);
        RegionWins(Certify(near, near.nodeClass, h, c), Certify(far, nodeClass, h', c'), maxCPU, requester, now);
      }
    } else {
      var worst, best := Certify(near, near.nodeClass, now - STALE_CUTOFF, 0), Certify(far, "A", now, 1);
      SameSoftTerms(near, near.nodeClass, now - STALE_CUTOFF, 0, requester, now);
      SameSoftTerms(far, "A", now, 1, requester, now);
      assert Score(worst, 1, requester, now) <= Score(best, 1, requester, now);
    }
  }

  lemma SameSoftTerms(n: Node, nodeClass: string, heartbeat: real, cores: int, requester: Requester, now: real)
    ensures Locality(Certify(n, nodeClass, heartbeat, cores), requester) == Locality(n, requester)
    ensures Load(Certify(n, nodeClass, heartbeat, cores), now) == Load(n, now)
  {
  }

  /** The limit is reached by every class and from either country: for every lead from it on there are nodes the region does not win for. */
  lemma RegionMayLose(nodeClass: string, sameCountry: bool, lead: real, requester: Requester, now: real) returns (near: Node, far: Node)
    requires requester.region != "" && (sameCountry ==> requester.country != "")
    requires lead >= ClassScore(nodeClass) - if sameCountry then 3.0 else 0.0
    ensures near.hardware.cpuCores == 0 && far.hardware.cpuCores == 1 && near.inFlight >= 0 && far.inFlight >= 0
    ensures near.nodeClass == nodeClass && Locality(near, requester) == 0.6
    ensures Locality(far, requester) == (if sameCountry then 0.3 else 0.0) && RegionMargin(near, far, requester) <= lead
    ensures Load(far, now) - Load(near, now) == lead
    ensures Score(near, 1, requester, now) <= Score(far, 1, requester, now)
  {
    var halves := (2.0 * lead).Floor;
    var rest := lead - PER_IN_FLIGHT * halves as real;
    var none := OptOut(false, false, false, false);
    var country := if sameCountry then requester.country else requester.country + "-";
    assert !sameCountry ==> |country| == |requester.country| + 1;
    near := Node("near", "", nodeClass, "", requester.region, Hardware(0, 0, 0, false), now - STALE_CUTOFF, "online", none, false,
                 0.0, None, if halves > 0 then halves else 0);
    far := Node("far", "", "A", country, "", Hardware(1, 0, 0, false), now, "online", none, false,
                100.0 - 50.0 * rest, Some(now), if halves < 0 then -halves else 0);
    assert far.cpuUtilPct / 100.0 == 1.0 - rest / 2.0;
    assert Idle(far, now) == rest / 2.0 && Idle(near, now) == 0.0;
  }

  /** With equal load terms a fresh class A node elsewhere in the country outscores a stale class D node of the region. */
  lemma CountryMayBeatRegion(near: Node, far: Node, requester: Requester, now: real)
    requires requester == Requester("east", "US") && near.region == "east" && near.nodeClass == "D"
    requires near.lastHeartbeat == now - STALE_CUTOFF && near.hardware.cpuCores == 0 && near.inFlight == 0 && near.ownerActive
    requires far.region == "west" && far.country == "US" && far.nodeClass == "A"
    requires far.lastHeartbeat == now && far.hardware.cpuCores == 1 && far.inFlight == 0 && far.ownerActive
    ensures Load(far, now) == Load(near, now) && Score(near, 1, requester, now) == 7.0 && Score(far, 1, requester, now) == 9.0
  {
    assert near.region == requester.region && far.region != requester.region && far.country == requester.country;
  }

  /** Self-reported idleness cannot make up a certified lead of more than two points. */
  lemma IdlenessIsBounded(a: Node, b: Node, maxCPU: int, requester: Requester, now: real)
    requires maxCPU >= 1 && Locality(a, requester) == Locality(b, requester) && a.inFlight == b.inFlight
    requires Certified(a, maxCPU, now) - Certified(b, maxCPU, now) > W_IDLE
    ensures Score(a, maxCPU, requester, now) > Score(b, maxCPU, requester, now)
  {
  }

  /** It makes up every smaller lead: an idle node outscores a busy one ahead of it by less than two. */
  lemma IdlenessOverturnsLess(a: Node, b: Node, maxCPU: int, requester: Requester, now: real)
    requires maxCPU >= 1 && Locality(a, requester) == Locality(b, requester) && a.inFlight == b.inFlight
    requires a.ownerActive && !b.ownerActive && b.loadSampledAt == Some(now) && b.cpuUtilPct == 0.0
    ensures Score(b, maxCPU, requester, now) > Score(a, maxCPU, requester, now) <==> Certified(a, maxCPU, now) - Certified(b, maxCPU, now) < W_IDLE
  {
  }

  /** The same node with another load report. */
  function Reporting(n: Node, ownerActive: bool, cpuUtilPct: real, sampledAt: Option<real>): Node {
    n.(ownerActive := ownerActive, cpuUtilPct := cpuUtilPct, loadSampledAt := sampledAt)
  }

  /** The first node outscores the second, whatever load the two report. */
  ghost predicate BeatsAnyReport(a: Node, b: Node, maxCPU: int, requester: Requester, now: real)
    requires maxCPU >= 1
  {
    forall active, active', util, util', at, at' ::
      Score(Reporting(a, active, util, at), maxCPU, requester, now) > Score(Reporting(b, active', util', at'), maxCPU, requester, now)
  }

  /** No load report overturns a certified lead exactly when it is more than two points. */
  lemma CertifiedLeadHoldsExactlyWhen(a: Node, b: Node, maxCPU: int, requester: Requester, now: real)
    requires maxCPU >= 1 && Locality(a, requester) == Locality(b, requester) && a.inFlight == b.inFlight
    ensures BeatsAnyReport(a, b, maxCPU, requester, now) <==> Certified(a, maxCPU, now) - Certified(b, maxCPU, now) > W_IDLE
  {
    if Certified(a, maxCPU, now) - Certified(b, maxCPU, now) > W_IDLE {
      forall active, active', util, util', at, at'
        ensures Score(Reporting(a, active, util, at), maxCPU, requester, now) >
                Score(Reporting(b, active', util', at'), maxCPU, requester, now)
      {
        IdlenessIsBounded(Reporting(a, active, util, at), Reporting(b, active', util', at'), maxCPU, requester, now);
      }
    } else {
      var busy, idle := Reporting(a, true, 0.0, None), Reporting(b, false, 0.0, Some(now));
      assert Score(busy, maxCPU, requester, now) <= Score(idle, maxCPU, requester, now);
    }
  }

  /** One class is one point, and a node of no class has none. */
  lemma ClassesAreOrdered(other: string)
    requires other !in {"A", "B", "C", "D"}
    ensures ClassScore("A") == ClassScore("B") + 1.0 && ClassScore("B") == ClassScore("C") + 1.0
    ensures ClassScore("C") == ClassScore("D") + 1.0 && ClassScore("D") == ClassScore(other) + 1.0 && ClassScore(other) == 0.0
  {
  }

  /** Half an hour of silence costs one point, evenly, and no more. */
  lemma SilenceCosts(n: Node, older: real, maxCPU: int, requester: Requester, now: real)
    requires maxCPU >= 1 && older <= n.lastHeartbeat <= now
    ensures var m := n.(lastHeartbeat := older);
            && Score(m, maxCPU, requester, now) <= Score(n, maxCPU, requester, now)
            && (now - older <= 1800.0 ==>
                  (Score(n, maxCPU, requester, now) - Score(m, maxCPU, requester, now)) * 1800.0 == n.lastHeartbeat - older)
            && (now - n.lastHeartbeat >= 1800.0 ==> Score(m, maxCPU, requester, now) == Score(n, maxCPU, requester, now))
  {
    var m := n.(lastHeartbeat := older);
    assert Locality(m, requester) == Locality(n, requester) && Idle(m, now) == Idle(n, now);
  }

  /** Each placement in flight costs half a point. */
  lemma PlacementCosts(n: Node, more: nat, maxCPU: int, requester: Requester, now: real)
    requires maxCPU >= 1
    ensures Score(n.(inFlight := n.inFlight + more), maxCPU, requester, now) == Score(n, maxCPU, requester, now) - more as real / 2.0
  {
    var m := n.(inFlight := n.inFlight + more);
    assert Locality(m, requester) == Locality(n, requester) && Idle(m, now) == Idle(n, now);
  }

  /**
   A percent of reported processor use costs two hundredths of a point, between none and all
   of it, while the report is at most 180 seconds old and the owner away.
   */
  lemma LoadCosts(n: Node, busier: real, maxCPU: int, requester: Requester, now: real)
    requires maxCPU >= 1 && n.cpuUtilPct <= busier
    ensures var m := n.(cpuUtilPct := busier);
            var counted := !n.ownerActive && n.loadSampledAt.Some? && now - n.loadSampledAt.value <= 180.0;
            var difference := Score(n, maxCPU, requester, now) - Score(m, maxCPU, requester, now);
            && (!counted ==> difference == 0.0)
            && (counted ==> difference == (InPercent(busier) - InPercent(n.cpuUtilPct)) / 50.0)
  {
    var m := n.(cpuUtilPct := busier);
    assert Locality(m, requester) == Locality(n, requester) && Certified(m, maxCPU, now) == Certified(n, maxCPU, now);
  }

  function InPercent(x: real): real {
    if x <= 0.0 then 0.0 else if x >= 100.0 then 100.0 else x
  }

  /** A node reporting all its processor in use has no point for idleness, nor has one that reports nothing of late. */
  lemma BusyAsSilent(n: Node, maxCPU: int, requester: Requester, now: real)
    requires maxCPU >= 1 && n.cpuUtilPct >= 100.0
    ensures Score(n, maxCPU, requester, now) == Score(n.(loadSampledAt := None), maxCPU, requester, now)
  {
    var m := n.(loadSampledAt := None);
    assert Locality(m, requester) == Locality(n, requester) && Certified(m, maxCPU, now) == Certified(n, maxCPU, now);
  }

  /** A node of the requester's region has six points for it, another one of the requester's country three. */
  lemma LocalityPoints(n: Node, maxCPU: int, requester: Requester, now: real)
    requires maxCPU >= 1
    ensures Score(n, maxCPU, requester, now) - Certified(n, maxCPU, now) - Load(n, now) ==
            if n.region != "" && n.region == requester.region then 6.0
            else if requester.country != "" && n.country == requester.country then 3.0 else 0.0
  {
  }

  lemma QuotientsDiffer(x: real, y: real, max: real)
    requires max > 0.0
    ensures (x / max - y / max) * max == x - y
  {
  }

  /** Cores count in proportion to the largest of the pool. */
  lemma CoresCount(n: Node, cores: int, maxCPU: int, requester: Requester, now: real)
    requires maxCPU >= 1
    ensures (Score(n.(hardware := n.hardware.(cpuCores := cores)), maxCPU, requester, now) - Score(n, maxCPU, requester, now)) * maxCPU as real
            == (cores - n.hardware.cpuCores) as real
  {
    var m := n.(hardware := n.hardware.(cpuCores := cores));
    assert Locality(m, requester) == Locality(n, requester) && Load(m, now) == Load(n, now);
    QuotientsDiffer(cores as real, n.hardware.cpuCores as real, maxCPU as real);
  }

  // ---------------------------------------------------------------------------
  // Ranking
  // ---------------------------------------------------------------------------

  datatype Scored = Scored(node: Node, score: real)

  predicate Descending(s: seq<Scored>) {
    forall i, j | 0 <= i < j < |s| :: s[i].score >= s[j].score
  }

  /** The sort: some descending order of the same entries; how ties fall is not promised. */
  method SortByScore(scored: seq<Scored>) returns (sorted: seq<Scored>)
    ensures multiset(sorted) == multiset(scored) && Descending(sorted)
  {
    sorted := [];
    for i := 0 to |scored|
      invariant multiset(sorted) == multiset(scored[..i]) && Descending(sorted)
    {
      assert scored[..i + 1] == scored[..i] + [scored[i]];
      sorted := InsertByScore(sorted, scored[i]);
    }
    assert scored[..|scored|] == scored;
  }

  method InsertByScore(s: seq<Scored>, x: Scored) returns (r: seq<Scored>)
    requires Descending(s)
    ensures multiset(r) == multiset(s) + multiset{x} && Descending(r)
  {
    var k := |s|;
    while k > 0 && s[k - 1].score < x.score
      invariant 0 <= k <= |s|
      invariant forall j | k <= j < |s| :: s[j].score < x.score
    {
      k := k - 1;
    }
    r := s[..k] + [x] + s[k..];
    InsertedInOrder(s, x, k);
    InsertedCount(s, x, k);
  }

  lemma InsertedInOrder(s: seq<Scored>, x: Scored, k: nat)
    requires Descending(s) && k <= |s| && (k > 0 ==> s[k - 1].score >= x.score)
    requires forall j | k <= j < |s| :: s[j].score < x.score
    ensures Descending(s[..k] + [x] + s[k..])
  {
    var r := s[..k] + [x] + s[k..];
    forall i, j | 0 <= i < j < |r| ensures r[i].score >= r[j].score {
      assert i < k ==> s[i].score >= s[k - 1].score;
      assert r[i] == if i < k then s[i] else if i == k then x else s[i - 1];
      assert r[j] == if j < k then s[j] else if j == k then x else s[j - 1];
    }
  }

  function ScoreAll(pool: seq<Node>, maxCPU: int, requester: Requester, now: real): (r: seq<Scored>)
    requires maxCPU >= 1
    ensures |r| == |pool| && forall i | 0 <= i < |r| :: r[i] == Scored(pool[i], Score(pool[i], maxCPU, requester, now))
  {
    if pool == [] then [] else
    ScoreAll(pool[..|pool| - 1], maxCPU, requester, now)
      + [Scored(pool[|pool| - 1], Score(pool[|pool| - 1], maxCPU, requester, now))]
  }

  function Nodes(s: seq<Scored>): (r: seq<Node>)
    ensures |r| == |s| && forall i | 0 <= i < |r| :: r[i] == s[i].node
  {
    if s == [] then [] else Nodes(s[..|s| - 1]) + [s[|s| - 1].node]
  }

  lemma {:induction false} NodesWithout(s: seq<Scored>, k: nat)
    requires k < |s|
    ensures Without(Nodes(s), k) == Nodes(Without(s, k))
  {
    hide Nodes;
    var u := Without(s, k);
    forall i | 0 <= i < |u| ensures Without(Nodes(s), k)[i] == Nodes(u)[i] {
      assert u[i] == if i < k then s[i] else s[i + 1];
    }
  }

  /** Dropping the scores of a reordering gives a reordering of the nodes. */
  lemma {:induction false} NodesCount(s: seq<Scored>, t: seq<Scored>)
    requires multiset(s) == multiset(t)
    ensures multiset(Nodes(s)) == multiset(Nodes(t))
    decreases |s|
  {
    if s == [] {
      assert |multiset(t)| == 0;
    } else {
      hide Nodes;
      assert s[0] in multiset(t);
      var k :| 0 <= k < |t| && t[k] == s[0];
      var s', t' := Without(s, 0), Without(t, k);
      WithoutCount(s, 0);
      WithoutCount(t, k);
      Cancel(multiset(s'), multiset(t'), s[0]);
      NodesCount(s', t');
      NodesWithout(s, 0);
      NodesWithout(t, k);
      hide Without;
      WithoutCount(Nodes(s), 0);
      WithoutCount(Nodes(t), k);
    }
  }

  /** The result is the front of the pool in some descending order of score. */
  ghost predicate TopOf(pool: seq<Node>, result: seq<Node>, rest: seq<Node>, maxCPU: int, requester: Requester, now: real)
    requires maxCPU >= 1
  {
    && multiset(result + rest) == multiset(pool)
    && (forall i, j | 0 <= i < j < |result| :: Score(result[i], maxCPU, requester, now) >= Score(result[j], maxCPU, requester, now))
    && (forall a, b | a in result && b in rest :: Score(a, maxCPU, requester, now) >= Score(b, maxCPU, requester, now))
  }

  lemma ScoresStay(pool: seq<Node>, sorted: seq<Scored>, maxCPU: int, requester: Requester, now: real, i: nat)
    requires maxCPU >= 1 && i < |sorted|
    requires multiset(sorted) == multiset(ScoreAll(pool, maxCPU, requester, now))
    ensures sorted[i].score == Score(sorted[i].node, maxCPU, requester, now)
  {
    hide Score;
    var scored := ScoreAll(pool, maxCPU, requester, now);
    assert sorted[i] in multiset(scored);
    var k :| 0 <= k < |scored| && scored[k] == sorted[i];
  }

  lemma SortedCount(pool: seq<Node>, sorted: seq<Scored>, maxCPU: int, requester: Requester, now: real)
    requires maxCPU >= 1 && multiset(sorted) == multiset(ScoreAll(pool, maxCPU, requester, now))
    ensures |sorted| == |pool| && multiset(Nodes(sorted)) == multiset(pool)
  {
    hide Score, ScoreAll, Nodes;
    var scored := ScoreAll(pool, maxCPU, requester, now);
    assert |multiset(sorted)| == |multiset(scored)|;
    NodesCount(sorted, scored);
    assert Nodes(scored) == pool;
  }

  /** The front of any descending reordering of the scored pool is the top of the pool. */
  lemma PrefixIsTop(pool: seq<Node>, sorted: seq<Scored>, tier: nat, maxCPU: int, requester: Requester, now: real)
    requires maxCPU >= 1 && tier <= |pool|
    requires multiset(sorted) == multiset(ScoreAll(pool, maxCPU, requester, now)) && Descending(sorted)
    ensures |sorted| == |pool| && TopOf(pool, Nodes(sorted)[..tier], Nodes(sorted)[tier..], maxCPU, requester, now)
  {
    hide Score, ScoreAll, Nodes;
    SortedCount(pool, sorted, maxCPU, requester, now);
    var ordered := Nodes(sorted);
    var result, rest := ordered[..tier], ordered[tier..];
    assert result + rest == ordered;
    forall i, j | 0 <= i < j < |ordered| ensures Score(ordered[i], maxCPU, requester, now) >= Score(ordered[j], maxCPU, requester, now) {
      ScoresStay(pool, sorted, maxCPU, requester, now, i);
      ScoresStay(pool, sorted, maxCPU, requester, now, j);
    }
    forall a, b | a in result && b in rest ensures Score(a, maxCPU, requester, now) >= Score(b, maxCPU, requester, now) {
      var i :| 0 <= i < tier && ordered[i] == a;
      var j :| 0 <= j < |rest| && rest[j] == b;
      assert ordered[tier + j] == b;
    }
  }

  method FindMaxCPU(pool: seq<Node>) returns (maxCPU: int)
    ensures maxCPU == MaxCPU(pool)
  {
    maxCPU := 1;
    for i := 0 to |pool|
      invariant maxCPU == MaxCPU(pool[..i])
    {
      assert pool[..i + 1][..i] == pool[..i];
      if pool[i].hardware.cpuCores > maxCPU {
        maxCPU := pool[i].hardware.cpuCores;
      }
    }
    assert pool[..|pool|] == pool;
  }

  method ScorePool(pool: seq<Node>, maxCPU: int, requester: Requester, now: real) returns (scored: seq<Scored>)
    requires maxCPU >= 1
    ensures scored == ScoreAll(pool, maxCPU, requester, now)
  {
    hide Score;
    scored := [];
    for i := 0 to |pool|
      invariant scored == ScoreAll(pool[..i], maxCPU, requester, now)
    {
      assert pool[..i + 1][..i] == pool[..i];
      scored := scored + [Scored(pool[i], Score(pool[i], maxCPU, requester, now))];
    }
    assert pool[..|pool|] == pool;
  }

  method Schedule(pool: seq<Node>, tier: nat, requester: Requester, now: real) returns (result: Option<seq<Node>>, ghost rest: seq<Node>)
    ensures result.None? <==> |pool| < tier
    ensures result.Some? ==> |result.value| == tier && TopOf(pool, result.value, rest, MaxCPU(pool), requester, now)
  {
    hide Score, TopOf, MaxCPU, ScoreAll, Nodes;
    if |pool| < tier {
      return None, [];
    }
    var maxCPU := FindMaxCPU(pool);
    var scored := ScorePool(pool, maxCPU, requester, now);
    var sorted := SortByScore(scored);
    PrefixIsTop(pool, sorted, tier, maxCPU, requester, now);
    var top := [];
    for i := 0 to tier
      invariant top == Nodes(sorted)[..i]
    {
      top := top + [sorted[i].node];
    }
    return Some(top), Nodes(sorted)[tier..];
  }

  // ---------------------------------------------------------------------------
  // The registry
  // ---------------------------------------------------------------------------

  predicate Distinct(nodes: seq<Node>) {
    forall i, j | 0 <= i < j < |nodes| :: nodes[i].id != nodes[j].id
  }

  class NodeRegistry {
    var nodes: map<string, Node>

    /** Entries are filed under their own id, and the in-flight counter is never negative. */
    predicate Valid()
      reads this
    {
      forall id | id in nodes :: nodes[id].id == id && nodes[id].inFlight >= 0
    }

    constructor ()
      ensures Valid() && nodes == map[]
    {
      nodes := map[];
    }

    method AddInFlight(id: string, delta: int)
      requires Valid()
      modifies this
      ensures Valid() && nodes.Keys == old(nodes).Keys
      ensures forall k | k in nodes && k != id :: nodes[k] == old(nodes)[k]
      ensures id in nodes ==>
                nodes[id] == old(nodes)[id].(inFlight := if old(nodes)[id].inFlight + delta < 0 then 0 else old(nodes)[id].inFlight + delta)
    {
      if id !in nodes {
        return;
      }
      var entry := nodes[id];
      var count := entry.inFlight + delta;
      if count < 0 {
        count := 0;
      }
      nodes := nodes[id := entry.(inFlight := count)];
    }

    /** Removes exactly the nodes whose last heartbeat is older than the limit. */
    method EvictStale(maxAge: real, now: real)
      requires Valid()
      modifies this
      ensures Valid()
      ensures nodes == map id | id in old(nodes) && old(nodes)[id].lastHeartbeat >= now - maxAge :: old(nodes)[id]
    {
      var cutoff := now - maxAge;
      var seen := nodes.Keys;
      while seen != {}
        invariant seen <= nodes.Keys
        invariant nodes == map id | id in old(nodes) && (id in seen || old(nodes)[id].lastHeartbeat >= cutoff) :: old(nodes)[id]
        decreases |seen|
      {
        var id :| id in seen;
        seen := seen - {id};
        if nodes[id].lastHeartbeat < cutoff {
          nodes := nodes - {id};
        }
      }
    }

    /** All matching nodes, each once, in no particular order; an error when there is none. */
    method FindMatch(req: Request) returns (found: Option<seq<Node>>)
      requires Valid()
      ensures found.None? <==> (forall id | id in nodes :: !Matches(nodes[id], req))
      ensures found.Some? ==> Distinct(found.value)
      ensures found.Some? ==> forall n :: n in found.value <==> n.id in nodes && nodes[n.id] == n && Matches(n, req)
      ensures found.Some? ==> forall n | n in found.value ::
                && n.status == "online" && n.id !in req.excluded && (req.consumer == "" || n.participant != req.consumer)
                && (req.country == "" || n.country == req.country) && (req.gpuRequired ==> n.hardware.gpuPresent)
                && n.hardware.cpuCores >= req.cpuCores && n.hardware.ramMB >= req.ramMB && n.hardware.storageGB >= req.storageGB
    {
      var candidates: seq<Node> := [];
      var seen := nodes.Keys;
      while seen != {}
        invariant seen <= nodes.Keys && Distinct(candidates)
        invariant forall n :: n in candidates <==> n.id in nodes && n.id !in seen && nodes[n.id] == n && Matches(n, req)
        decreases |seen|
      {
        var id :| id in seen;
        seen := seen - {id};
        var node := nodes[id];
        var ok := PassesFilters(node, req);
        if ok {
          candidates := candidates + [node];
        }
      }
      if |candidates| == 0 {
        return None;
      }
      assert candidates[0] in candidates;
      return Some(candidates);
    }

    /** The chain of checks, in the order the loop makes them. */
    static method PassesFilters(node: Node, req: Request) returns (ok: bool)
      ensures ok <==> Matches(node, req)
    {
      if node.id in req.excluded {
        return false;
      }
      if req.consumer != "" && node.participant == req.consumer {
        return false;
      }
      if node.status != "online" {
        return false;
      }
      if req.country != "" && node.country != req.country {
        return false;
      }
      if req.gpuRequired && !node.hardware.gpuPresent {
        return false;
      }
      if node.hardware.cpuCores < req.cpuCores || node.hardware.ramMB < req.ramMB || node.hardware.storageGB < req.storageGB {
        return false;
      }
      if req.workload != "" {
        match CategoryOf(req.workload)
        case None =>
        case Some(Compute) => if node.optOut.compute { return false; }
        case Some(Storage) => if node.optOut.storage { return false; }
        case Some(Print) => if node.optOut.printing || !node.optOut.hasEnabledPrinter { return false; }
      }
      return true;
    }

    /**
     Filter then rank: exactly `tier` different nodes, every one of them passing every hard
     filter, and no passing node left out that scores higher; refused exactly when too few pass.
     */
    method Place(req: Request, tier: nat, requester: Requester, now: real) returns (placed: Option<seq<Node>>, ghost pool: seq<Node>)
      requires Valid()
      ensures Distinct(pool) && forall n :: n in pool <==> n.id in nodes && nodes[n.id] == n && Matches(n, req)
      ensures placed.None? <==> pool == [] || |pool| < tier
      ensures placed.Some? ==>
                && |placed.value| == tier && Distinct(placed.value)
                && (forall n | n in placed.value :: n in pool)
                && (forall a, b | a in placed.value && b in pool && b !in placed.value ::
                      Score(a, MaxCPU(pool), requester, now) >= Score(b, MaxCPU(pool), requester, now))
    {
      hide Score, Matches;
      var found := FindMatch(req);
      if found.None? {
        return None, [];
      }
      ghost var rest;
      placed, rest := Schedule(found.value, tier, requester, now);
      pool := found.value;
      if placed.Some? {
        TopIsDistinct(pool, placed.value, rest);
      }
    }
  }

  /** Parts of a pool of different nodes are different nodes, and cover it. */
  lemma TopIsDistinct(pool: seq<Node>, result: seq<Node>, rest: seq<Node>)
    requires Distinct(pool) && multiset(result + rest) == multiset(pool)
    ensures Distinct(result) && (forall n :: n in pool <==> n in result || n in rest)
  {
    var all := result + rest;
    forall n ensures n in pool <==> n in all {
      assert n in pool <==> n in multiset(pool);
      assert n in all <==> n in multiset(all);
    }
    forall i, j | 0 <= i < j < |result| ensures result[i].id != result[j].id {
      if result[i].id == result[j].id {
        SameIdSameNode(pool, result[i], result[j]);
        assert all == all[..j] + [all[j]] + all[j + 1..];
        assert all[i] == all[..j][i];
        assert multiset(all)[all[i]] >= 2;
        OncePerNode(pool, result[i]);
      }
    }
  }

  lemma SameIdSameNode(pool: seq<Node>, a: Node, b: Node)
    requires Distinct(pool) && a in pool && b in pool && a.id == b.id
    ensures a == b
  {
    var i :| 0 <= i < |pool| && pool[i] == a;
    var j :| 0 <= j < |pool| && pool[j] == b;
    assert i == j;
  }

  lemma {:induction false} OncePerNode(pool: seq<Node>, n: Node)
    requires Distinct(pool)
    ensures multiset(pool)[n] <= 1
  {
    if pool != [] {
      var k := |pool| - 1;
      assert pool == pool[..k] + [pool[k]];
      OncePerNode(pool[..k], n);
      assert n == pool[k] ==> n !in pool[..k];
    }
  }
}
