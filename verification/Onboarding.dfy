/**
 The life of one operator row: key registration, conformance, email verification,
 activation, use, rotation and revocation, as a state machine over whole runs.
 */
module Onboarding {
  import opened Wrappers
  import opened KeyRing
  import opened ByteOrder
  import opened KeysetHash

  const KEY_BYTES: nat := 32
  const ED25519: string := "ed25519"

  datatype Status = InForce | RevokedForGood
  datatype Stage = Pending | Activated
  datatype Suite = SuiteA | SuiteB | SuiteC

  /** The stored verdict of each graded challenge of one conformance run. */
  type Verdicts = map<Suite, bool>

  /** The columns of a run's own row: its status, the bound hash and whether a finish time is set. */
  datatype RunRow = RunRow(status: RunStatus, keysetHash: Option<Digest>, finished: bool)
  datatype RunStatus = RunRunning | RunPassed | RunFailed

  datatype Operator = Operator(
    status: Status, stage: Stage, emailVerified: bool, pass: Option<Digest>, rows: seq<KeyRow>, runs: map<int, Verdicts>,
    runRows: map<int, RunRow>)

  datatype Error =
    | UnsupportedAlgo | KeysetCountMismatch | AlreadyActive | BadThreshold | BadKeyLength
    | ActivationPreconditions | KeysetHashMismatch | RunNotFound | ConformanceNotReady

  datatype Outcome = Outcome(op: Operator, error: Option<Error>)

  function NewOperator(): Operator {
    Operator(InForce, Pending, false, None, [], map[], map[])
  }

  // ---------------------------------------------------------------------------
  // The operations
  // ---------------------------------------------------------------------------

  function ActivePubs(rows: seq<KeyRow>): (pubs: seq<Bytes>)
    ensures |pubs| == ActiveCount(rows)
  {
    if rows == [] then []
    else
      var n := |rows| - 1;
      ActivePubs(rows[..n]) + if rows[n].state.Active? then [rows[n].pub] else []
  }

  function NewRows(pubs: seq<Bytes>, algo: string, thresholds: seq<int>, n: nat): (rows: seq<KeyRow>)
    requires n <= |pubs| && n <= |thresholds|
    ensures |rows| == n
  {
    seq(n, i requires 0 <= i < n => KeyRow(i, pubs[i], algo, Active, 0, if thresholds[i] < 0 then 0 else thresholds[i]))
  }

  /** Registration as the handler calls it: an empty algorithm means the default, and no other is taken. */
  function AddKeys(op: Operator, pubs: seq<Bytes>, algo: string, thresholds: seq<int>): Outcome {
    if algo != "" && algo != ED25519 then Outcome(op, Some(UnsupportedAlgo))
    else if |pubs| != KEY_INDEX_COUNT then Outcome(op, Some(KeysetCountMismatch))
    else if exists i | 0 <= i < |pubs| :: |pubs[i]| != KEY_BYTES then Outcome(op, Some(BadKeyLength))
    else if |thresholds| != KEY_INDEX_COUNT then Outcome(op, Some(KeysetCountMismatch))
    else if op.stage.Activated? then Outcome(op, Some(AlreadyActive))
    else if exists i | 0 <= i < |thresholds| :: thresholds[i] <= 0 then Outcome(op, Some(BadThreshold))
    else Outcome(op.(rows := NewRows(pubs, ED25519, thresholds, KEY_INDEX_COUNT), pass := None), None)
  }

  /** A challenge is graded once; a later submission leaves the stored verdict alone. */
  function Grade(op: Operator, run: int, suite: Suite, verdict: bool): Operator {
    if run !in op.runs || suite in op.runs[run] then op
    else op.(runs := op.runs[run := op.runs[run][suite := verdict]])
  }

  predicate Passed(v: Verdicts, suite: Suite) {
    suite in v && v[suite]
  }

  predicate AllPassed(v: Verdicts) {
    Passed(v, SuiteA) && Passed(v, SuiteB) && Passed(v, SuiteC)
  }

  /** The challenges of the two signed suites are issued with the run; that of suite C is stored already graded. */
  predicate AllConsumed(v: Verdicts) {
    SuiteA in v && SuiteB in v
  }

  function RunRowOf(op: Operator, run: int): RunRow {
    if run in op.runRows then op.runRows[run] else RunRow(RunRunning, None, false)
  }

  /** A run short of a pass is failed once every issued challenge is consumed, and running otherwise. */
  function NotReady(row: RunRow, v: Verdicts): RunRow {
    if AllConsumed(v) then row.(status := RunFailed, finished := true) else row.(status := RunRunning)
  }

  function FinalizeRun(op: Operator, run: int): Outcome {
    if run !in op.runs then Outcome(op, Some(RunNotFound))
    else if !AllPassed(op.runs[run]) then
      Outcome(op.(runRows := op.runRows[run := NotReady(RunRowOf(op, run), op.runs[run])]), Some(ConformanceNotReady))
    else if ActiveCount(op.rows) != KEY_INDEX_COUNT then Outcome(op, Some(KeysetCountMismatch))
    else
      var hash := Some(KeysetDigest(ActivePubs(op.rows)));
      Outcome(op.(pass := hash, runRows := op.runRows[run := RunRow(RunPassed, hash, true)]), None)
  }

  function AutoActivate(op: Operator): Outcome {
    if op.stage.Activated? then Outcome(op, None)
    else if !op.status.InForce? || !op.emailVerified || op.pass.None? then Outcome(op, Some(ActivationPreconditions))
    else if ActiveCount(op.rows) != KEY_INDEX_COUNT then Outcome(op, Some(KeysetCountMismatch))
    else if KeysetDigest(ActivePubs(op.rows)) != op.pass.value then Outcome(op, Some(KeysetHashMismatch))
    else Outcome(op.(stage := Activated), None)
  }

  function RevokeAll(rows: seq<KeyRow>): (rows': seq<KeyRow>)
    ensures |rows'| == |rows|
    ensures forall p | 0 <= p < |rows| :: rows'[p] == if rows[p].state.Active? then rows[p].(state := Revoked) else rows[p]
  {
    seq(|rows|, i requires 0 <= i < |rows| => if rows[i].state.Active? then rows[i].(state := Revoked) else rows[i])
  }

  /** What the authentication gate is handed for this operator. */
  function GatedKeyMap(op: Operator): Option<map<int, KeyRecord>> {
    if op.status.InForce? && op.stage.Activated? then KeyMap(op.rows) else None
  }

  // ---------------------------------------------------------------------------
  // Runs
  // ---------------------------------------------------------------------------

  datatype Event =
    | EvAddKeys(pubs: seq<Bytes>, algo: string, thresholds: seq<int>)
    | EvStartRun(run: int)
    | EvGrade(run: int, suite: Suite, verdict: bool)
    | EvFinalize(run: int)
    | EvEmailVerified
    | EvAutoActivate
    | EvTransmission(idx0: int, idx1: int)
    | EvRotate(rot: Rotation, threshold: int)
    | EvRevoke
    | EvDisconnect

  /**
   The operator together with what an observer remembers: the keys active at each grading,
   the run and the keys of the last pass, how many transmissions were counted, whether a
   revocation ever happened.
   */
  datatype System = System(op: Operator, gradedUnder: map<(int, Suite), seq<Bytes>>, boundRun: int, boundKeys: seq<Bytes>,
                           counted: nat, revokedEver: bool)

  function Initial(): System {
    System(NewOperator(), map[], 0, [], 0, false)
  }

  /** A transmission signed by two distinct keys of the gated map is counted. */
  function Transmit(s: System, idx0: int, idx1: int): System {
    var km := GatedKeyMap(s.op);
    if km.None? || idx0 == idx1 || idx0 !in km.value || idx1 !in km.value then s
    else s.(op := s.op.(rows := RecordUsage(s.op.rows, idx0, idx1, MIN_ACTIVE_KEYS).rows), counted := s.counted + 1)
  }

  function Next(s: System, e: Event): System {
    match e
    case EvAddKeys(pubs, algo, thresholds) => s.(op := AddKeys(s.op, pubs, algo, thresholds).op)
    case EvStartRun(run) =>
      if run in s.op.runs || ActiveCount(s.op.rows) != KEY_INDEX_COUNT then s
      else s.(op := s.op.(runs := s.op.runs[run := map[]], runRows := s.op.runRows[run := RunRow(RunRunning, None, false)]))
    case EvGrade(run, suite, verdict) =>
      var op' := Grade(s.op, run, suite, verdict);
      if op' == s.op then s
      else s.(op := op', gradedUnder := s.gradedUnder[(run, suite) := ActivePubs(s.op.rows)])
    case EvFinalize(run) =>
      var r := FinalizeRun(s.op, run);
      if r.error.Some? then s.(op := r.op) else s.(op := r.op, boundRun := run, boundKeys := ActivePubs(s.op.rows))
    case EvEmailVerified => s.(op := s.op.(emailVerified := true))
    case EvAutoActivate => s.(op := AutoActivate(s.op).op)
    case EvTransmission(idx0, idx1) => Transmit(s, idx0, idx1)
    case EvRotate(rot, threshold) =>
      if GatedKeyMap(s.op).None? || Rotate(s.op.rows, rot, threshold).None? then s
      else s.(op := s.op.(rows := Rotate(s.op.rows, rot, threshold).value))
    case EvRevoke => s.(op := s.op.(status := RevokedForGood), revokedEver := true)
    case EvDisconnect => s.(op := s.op.(status := RevokedForGood, rows := RevokeAll(s.op.rows)), revokedEver := true)
  }

  ghost predicate IsRun(states: seq<System>, events: seq<Event>) {
    && |states| == |events| + 1
    && states[0] == Initial()
    && forall i | 0 <= i < |events| :: states[i + 1] == Next(states[i], events[i])
  }

  // ---------------------------------------------------------------------------
  // The invariant
  // ---------------------------------------------------------------------------

  /** Keys that have been registered but never used: all still active, or all revoked. */
  ghost predicate Unused(rows: seq<KeyRow>) {
    forall p | 0 <= p < |rows| :: rows[p].usage == 0 && |rows[p].pub| == KEY_BYTES
  }

  ghost predicate Serviceable(rows: seq<KeyRow>) {
    MIN_ACTIVE_KEYS <= ActiveCount(rows) <= KEY_INDEX_COUNT && OneAlgo(rows, ED25519)
  }

  ghost predicate Inv(s: System) {
    var op := s.op;
    && Indexed(op.rows)
    && OneAlgo(op.rows, ED25519)
    && (op.stage.Pending? ==> Unused(op.rows))
    && (op.stage.Pending? && op.pass.Some? ==> op.pass.value == KeysetDigest(s.boundKeys) && AllOfLength(s.boundKeys, KEY_BYTES))
    && (op.pass.Some? ==> s.boundRun in op.runs && AllPassed(op.runs[s.boundRun]))
    && (op.stage.Activated? ==> op.emailVerified && op.pass.Some?)
    && (op.stage.Activated? && op.status.InForce? ==> Serviceable(op.rows))
    && (s.revokedEver <==> op.status.RevokedForGood?)
    && TotalUsage(op.rows) == 2 * s.counted
    && (forall run, suite | run in op.runs && suite in op.runs[run] :: (run, suite) in s.gradedUnder)
    && (op.stage.Pending? ==> forall k | k in s.gradedUnder :: AllOfLength(s.gradedUnder[k], KEY_BYTES))
  }

  lemma {:induction false} UnusedTotal(rows: seq<KeyRow>)
    requires Unused(rows)
    ensures TotalUsage(rows) == 0
  {
    if rows != [] {
      UnusedTotal(rows[..|rows| - 1]);
    }
  }

  lemma {:induction false} AllActivePubs(pubs: seq<Bytes>, algo: string, thresholds: seq<int>, n: nat)
    requires n <= |pubs| && n <= |thresholds|
    ensures ActivePubs(NewRows(pubs, algo, thresholds, n)) == pubs[..n]
  {
    if n > 0 {
      var rows := NewRows(pubs, algo, thresholds, n);
      assert rows[..n - 1] == NewRows(pubs, algo, thresholds, n - 1);
      AllActivePubs(pubs, algo, thresholds, n - 1);
    }
  }

  lemma {:induction false} ActivePubsLength(rows: seq<KeyRow>, n: nat)
    requires forall p | 0 <= p < |rows| :: |rows[p].pub| == n
    ensures AllOfLength(ActivePubs(rows), n)
  {
    if rows != [] {
      ActivePubsLength(rows[..|rows| - 1], n);
    }
  }

  lemma {:induction false} RevokeAllUsage(rows: seq<KeyRow>)
    ensures TotalUsage(RevokeAll(rows)) == TotalUsage(rows)
  {
    if rows != [] {
      var n := |rows| - 1;
      RevokeAllUsage(rows[..n]);
      assert RevokeAll(rows)[..n] == RevokeAll(rows[..n]);
    }
  }

  lemma AddKeysKeeps(s: System, pubs: seq<Bytes>, algo: string, thresholds: seq<int>)
    requires Inv(s)
    ensures Inv(Next(s, EvAddKeys(pubs, algo, thresholds)))
  {
    var r := AddKeys(s.op, pubs, algo, thresholds);
    if r.error.None? {
      UnusedTotal(s.op.rows);
      UnusedTotal(r.op.rows);
    }
  }

  lemma GradeKeeps(s: System, run: int, suite: Suite, verdict: bool)
    requires Inv(s)
    ensures Inv(Next(s, EvGrade(run, suite, verdict)))
  {
    hide KeysetDigest, AddKeys, FinalizeRun, AutoActivate, RecordUsage, Rotate, GatedKeyMap, Indexed, OneAlgo;
    if s.op.stage.Pending? {
      ActivePubsLength(s.op.rows, KEY_BYTES);
    }
  }

  lemma FinalizeKeeps(s: System, run: int)
    requires Inv(s)
    ensures Inv(Next(s, EvFinalize(run)))
  {
    hide KeysetDigest, AllPassed, NotReady, Indexed, OneAlgo, AllOfLength, ActiveCount, TotalUsage;
    if s.op.stage.Pending? {
      ActivePubsLength(s.op.rows, KEY_BYTES);
    }
  }

  lemma ActivateKeeps(s: System)
    requires Inv(s)
    ensures Inv(Next(s, EvAutoActivate))
  {
  }

  lemma UsageKeepsRows(rows: seq<KeyRow>, i: int, j: int)
    requires Indexed(rows) && Serviceable(rows) && i != j && i in ActiveMap(rows) && j in ActiveMap(rows)
    ensures var rows' := RecordUsage(rows, i, j, MIN_ACTIVE_KEYS).rows;
            Indexed(rows') && Serviceable(rows') && TotalUsage(rows') == TotalUsage(rows) + 2
  {
    FindInMap(rows, i);
    FindInMap(rows, j);
    RecordUsageEffect(rows, i, j, MIN_ACTIVE_KEYS);
    CountedOneAlgo(rows, RecordUsage(rows, i, j, MIN_ACTIVE_KEYS).rows, {i, j}, ED25519);
  }

  lemma TransmissionKeeps(s: System, idx0: int, idx1: int)
    requires Inv(s)
    ensures Inv(Transmit(s, idx0, idx1))
  {
    hide KeysetDigest, RecordUsage, KeyMap, Indexed, AllPassed, OneAlgo, AllOfLength;
    var km := GatedKeyMap(s.op);
    if km.Some? && idx0 != idx1 && idx0 in km.value && idx1 in km.value {
      KeyMapOfOneAlgo(s.op.rows, ED25519);
      UsageKeepsRows(s.op.rows, idx0, idx1);
    }
  }

  lemma RotateKeeps(s: System, rot: Rotation, threshold: int)
    requires Inv(s)
    ensures Inv(Next(s, EvRotate(rot, threshold)))
  {
    if GatedKeyMap(s.op).Some? && Rotate(s.op.rows, rot, threshold).Some? {
      RotateEffect(s.op.rows, rot, threshold, ED25519);
      AtMostSeven(Rotate(s.op.rows, rot, threshold).value);
    }
  }

  lemma DisconnectKeeps(s: System)
    requires Inv(s)
    ensures Inv(Next(s, EvDisconnect))
  {
    var rows := RevokeAll(s.op.rows);
    RevokeAllUsage(s.op.rows);
    NarrowedIndexed(s.op.rows, rows);
  }

  lemma StepKeepsInv(s: System, e: Event)
    requires Inv(s)
    ensures Inv(Next(s, e))
  {
    match e
    case EvAddKeys(pubs, algo, thresholds) => AddKeysKeeps(s, pubs, algo, thresholds);
    case EvStartRun(run) =>
    case EvGrade(run, suite, verdict) => GradeKeeps(s, run, suite, verdict);
    case EvFinalize(run) => FinalizeKeeps(s, run);
    case EvEmailVerified =>
    case EvAutoActivate => ActivateKeeps(s);
    case EvTransmission(idx0, idx1) => TransmissionKeeps(s, idx0, idx1);
    case EvRotate(rot, threshold) => RotateKeeps(s, rot, threshold);
    case EvRevoke =>
    case EvDisconnect => DisconnectKeeps(s);
  }

  lemma {:induction false} RunKeepsInv(states: seq<System>, events: seq<Event>, n: nat)
    requires IsRun(states, events) && n < |states|
    ensures Inv(states[n])
  {
    if n > 0 {
      RunKeepsInv(states, events, n - 1);
      StepKeepsInv(states[n - 1], events[n - 1]);
    }
  }

  // ---------------------------------------------------------------------------
  // What every run promises
  // ---------------------------------------------------------------------------

  /** Keys are handed out exactly to operators that are activated and not revoked. */
  lemma KeyMapExactlyWhenInForce(states: seq<System>, events: seq<Event>, n: nat)
    requires IsRun(states, events) && n < |states|
    ensures var s := states[n];
            && (GatedKeyMap(s.op).Some? <==> s.op.stage.Activated? && !s.revokedEver)
            && (GatedKeyMap(s.op).Some? ==>
                  && s.op.emailVerified && s.op.pass.Some?
                  && s.boundRun in s.op.runs && AllPassed(s.op.runs[s.boundRun])
                  && GatedKeyMap(s.op).value == ActiveMap(s.op.rows)
                  && 3 <= ActiveCount(s.op.rows) <= 7)
  {
    RunKeepsInv(states, events, n);
    var s := states[n];
    if s.op.stage.Activated? && s.op.status.InForce? {
      KeyMapOfOneAlgo(s.op.rows, ED25519);
    }
  }

  /** No run stores keys of different algorithms, so the pin of the key map is never at stake. */
  lemma NoRunMixesAlgos(states: seq<System>, events: seq<Event>, n: nat)
    requires IsRun(states, events) && n < |states|
    ensures forall p | 0 <= p < |states[n].op.rows| && states[n].op.rows[p].state.Active? :: states[n].op.rows[p].algo == ED25519
    ensures GatedKeyMap(states[n].op).Some? ==> forall i | i in GatedKeyMap(states[n].op).value :: GatedKeyMap(states[n].op).value[i].algo == ED25519
  {
    RunKeepsInv(states, events, n);
    KeyMapExactlyWhenInForce(states, events, n);
  }

  lemma RevokedStep(s: System, e: Event)
    requires s.op.status.RevokedForGood?
    ensures Next(s, e).op.status.RevokedForGood?
  {
    hide NewRows, KeysetDigest, ActivePubs, RecordUsage, Rotate, RevokeAll, GatedKeyMap;
  }

  lemma {:induction false} RevocationAbsorbs(states: seq<System>, events: seq<Event>, m: nat, n: nat)
    requires IsRun(states, events) && m <= n < |states| && states[m].op.status.RevokedForGood?
    ensures states[n].op.status.RevokedForGood? && GatedKeyMap(states[n].op) == None
  {
    hide Next;
    if m < n {
      RevocationAbsorbs(states, events, m, n - 1);
      assert states[n] == Next(states[n - 1], events[n - 1]);
      RevokedStep(states[n - 1], events[n - 1]);
    }
  }

  /** All usage ever counted, over active, expired and retired rows, is two per counted transmission. */
  lemma UsageIsTwicePerTransmission(states: seq<System>, events: seq<Event>, n: nat)
    requires IsRun(states, events) && n < |states|
    ensures TotalUsage(states[n].op.rows) == 2 * states[n].counted
  {
    RunKeepsInv(states, events, n);
  }

  ghost predicate Activates(s: System, e: Event) {
    e.EvAutoActivate? && s.op.stage.Pending? && Next(s, e).op.stage.Activated?
  }

  /** The seven keys an activating step finds are, in any order, those active when the pass was bound. */
  lemma ActivationMatchesPass(s: System)
    requires Inv(s) && Activates(s, EvAutoActivate)
    ensures |ActivePubs(s.op.rows)| == KEY_INDEX_COUNT
    ensures multiset(ActivePubs(s.op.rows)) == multiset(s.boundKeys)
  {
    hide KeysetDigest, AddKeys, Grade, FinalizeRun, RecordUsage, Rotate, GatedKeyMap, Indexed, AllPassed;
    ActivePubsLength(s.op.rows, KEY_BYTES);
    DigestIdentifiesKeyset(ActivePubs(s.op.rows), s.boundKeys, KEY_BYTES);
  }

  lemma BoundStep(s: System, e: Event)
    requires Next(s, e).op.stage.Pending? && Next(s, e).op.pass.Some?
    ensures || (e == EvFinalize(Next(s, e).boundRun) && FinalizeRun(s.op, Next(s, e).boundRun).error.None?
                && Next(s, e).boundKeys == ActivePubs(s.op.rows))
            || (s.op.stage.Pending? && s.op.pass.Some? && s.boundRun == Next(s, e).boundRun && s.boundKeys == Next(s, e).boundKeys)
  {
  }

  /** e finalizes a run in state s, binding the keys active there. */
  ghost predicate Binds(s: System, e: Event, run: int, keys: seq<Bytes>) {
    e == EvFinalize(run) && FinalizeRun(s.op, run).error.None? && keys == ActivePubs(s.op.rows)
  }

  lemma {:induction false} BoundAtFinalize(states: seq<System>, events: seq<Event>, n: nat)
    requires IsRun(states, events) && n < |states| && states[n].op.stage.Pending? && states[n].op.pass.Some?
    ensures exists f :: 0 <= f < n && Binds(states[f], events[f], states[n].boundRun, states[n].boundKeys)
  {
    var m := n - 1;
    BoundStep(states[m], events[m]);
    if !Binds(states[m], events[m], states[n].boundRun, states[n].boundKeys) {
      BoundAtFinalize(states, events, m);
    }
  }

  /** Whenever a run activates the operator, it does so on the keys that some earlier finalization bound. */
  lemma ActivatedKeysAreBoundKeys(states: seq<System>, events: seq<Event>, n: nat)
    requires IsRun(states, events) && n < |events| && Activates(states[n], events[n])
    ensures exists f, keys :: 0 <= f < n && Binds(states[f], events[f], states[n].boundRun, keys)
                              && multiset(keys) == multiset(ActivePubs(states[n].op.rows)) && |keys| == KEY_INDEX_COUNT
  {
    RunKeepsInv(states, events, n);
    ActivationMatchesPass(states[n]);
    BoundAtFinalize(states, events, n);
    assert |multiset(states[n].boundKeys)| == |states[n].boundKeys|;
  }

  // ---------------------------------------------------------------------------
  // Is the activated key set the tested one?
  // ---------------------------------------------------------------------------

  /** The keys a suite was graded under in the run whose pass is in force. */
  ghost function GradedKeys(s: System, suite: Suite): seq<Bytes> {
    if (s.boundRun, suite) in s.gradedUnder then s.gradedUnder[(s.boundRun, suite)] else []
  }

  /** The keys that answered both signed suites are the ones now active. */
  ghost predicate ActiveKeysWereTested(s: System) {
    && multiset(GradedKeys(s, SuiteA)) == multiset(ActivePubs(s.op.rows))
    && multiset(GradedKeys(s, SuiteB)) == multiset(ActivePubs(s.op.rows))
  }

  /** The call registers its keys. */
  predicate Registers(s: System, e: Event) {
    e.EvAddKeys? && AddKeys(s.op, e.pubs, e.algo, e.thresholds).error.None?
  }

  /** The call stores the verdict of a challenge. */
  predicate Grades(s: System, e: Event, run: int, suite: Suite) {
    e.EvGrade? && e.run == run && e.suite == suite && run in s.op.runs && suite !in s.op.runs[run]
  }

  /** r is the last accepted registration before n. */
  ghost predicate LastRegistration(states: seq<System>, events: seq<Event>, n: int, r: int)
    requires |states| == |events| + 1 && n <= |events|
  {
    0 <= r < n && Registers(states[r], events[r]) && forall i | r < i < n :: !Registers(states[i], events[i])
  }

  /** Before activation the keys change by registration only, unless the operator is revoked. */
  lemma PendingStep(s: System, e: Event)
    requires Next(s, e).op.stage.Pending? && Next(s, e).op.status.InForce?
    ensures s.op.stage.Pending? && s.op.status.InForce?
    ensures Registers(s, e) ==> ActivePubs(Next(s, e).op.rows) == e.pubs
    ensures !Registers(s, e) ==> Next(s, e).op.rows == s.op.rows
    ensures s.op.rows == [] && s.op.runs == map[] && !Registers(s, e) ==> Next(s, e).op.runs == map[]
  {
    if Registers(s, e) {
      AllActivePubs(e.pubs, ED25519, e.thresholds, KEY_INDEX_COUNT);
      assert e.pubs[..KEY_INDEX_COUNT] == e.pubs;
    }
  }

  /** So the active keys of a pending operator are those of the last accepted registration. */
  lemma {:induction false} KeysAreLastRegistered(states: seq<System>, events: seq<Event>, n: nat) returns (r: int)
    requires IsRun(states, events) && n <= |events| && states[n].op.stage.Pending? && states[n].op.status.InForce?
    ensures || (r == -1 && states[n].op.rows == [] && states[n].op.runs == map[])
            || (LastRegistration(states, events, n, r) && ActivePubs(states[n].op.rows) == events[r].pubs)
  {
    hide Registers;
    if n == 0 {
      r := -1;
    } else {
      PendingStep(states[n - 1], events[n - 1]);
      if Registers(states[n - 1], events[n - 1]) {
        r := n - 1;
      } else {
        r := KeysAreLastRegistered(states, events, n - 1);
      }
    }
  }

  lemma GradingStep(s: System, e: Event, run: int, suite: Suite)
    requires (run, suite) in Next(s, e).gradedUnder
    ensures if Grades(s, e, run, suite) then Next(s, e).gradedUnder[(run, suite)] == ActivePubs(s.op.rows)
            else (run, suite) in s.gradedUnder && Next(s, e).gradedUnder[(run, suite)] == s.gradedUnder[(run, suite)]
  {
  }

  /** The remembered keys of a grading are those active when it was stored. */
  lemma {:induction false} GradedOnce(states: seq<System>, events: seq<Event>, n: nat, run: int, suite: Suite) returns (g: nat)
    requires IsRun(states, events) && n <= |events| && (run, suite) in states[n].gradedUnder
    ensures g < n && Grades(states[g], events[g], run, suite)
    ensures states[n].gradedUnder[(run, suite)] == ActivePubs(states[g].op.rows)
  {
    var m := n - 1;
    GradingStep(states[m], events[m], run, suite);
    if Grades(states[m], events[m], run, suite) {
      g := m;
    } else {
      g := GradedOnce(states, events, m, run, suite);
    }
  }

  lemma {:induction false} PendingBefore(states: seq<System>, events: seq<Event>, m: nat, n: nat)
    requires IsRun(states, events) && m <= n <= |events| && states[n].op.stage.Pending? && states[n].op.status.InForce?
    ensures states[m].op.stage.Pending? && states[m].op.status.InForce?
  {
    if m < n {
      PendingStep(states[n - 1], events[n - 1]);
      PendingBefore(states, events, m, n - 1);
    }
  }

  /** For a suite of the bound run: where its verdict was stored and the last registration before that. */
  lemma SuiteWasGraded(states: seq<System>, events: seq<Event>, n: nat, suite: Suite) returns (g: nat, r: int)
    requires IsRun(states, events) && n < |events| && Activates(states[n], events[n])
    ensures g < n && Grades(states[g], events[g], states[n].boundRun, suite)
    ensures LastRegistration(states, events, g, r) && GradedKeys(states[n], suite) == events[r].pubs
  {
    hide Registers;
    RunKeepsInv(states, events, n);
    g := GradedOnce(states, events, n, states[n].boundRun, suite);
    PendingBefore(states, events, g, n);
    r := KeysAreLastRegistered(states, events, g);
  }

  /**
   Activation is on the very keys that answered the two signed suites exactly when the last
   accepted registrations before the two gradings and before the activation carry the same
   keys, in any order.  Finalization itself does not compare them.
   */
  lemma ActivatedKeysWereTestedExactlyWhen(states: seq<System>, events: seq<Event>, n: nat)
    returns (r: int, gA: nat, rA: int, gB: nat, rB: int)
    requires IsRun(states, events) && n < |events| && Activates(states[n], events[n])
    ensures gA < n && Grades(states[gA], events[gA], states[n].boundRun, SuiteA) && LastRegistration(states, events, gA, rA)
    ensures gB < n && Grades(states[gB], events[gB], states[n].boundRun, SuiteB) && LastRegistration(states, events, gB, rB)
    ensures LastRegistration(states, events, n, r)
    ensures ActiveKeysWereTested(states[n]) <==>
            multiset(events[rA].pubs) == multiset(events[r].pubs) == multiset(events[rB].pubs)
  {
    hide Registers, Grades;
    gA, rA := SuiteWasGraded(states, events, n, SuiteA);
    gB, rB := SuiteWasGraded(states, events, n, SuiteB);
    r := KeysAreLastRegistered(states, events, n);
  }

  /** In particular when no registration is accepted after the gradings began. */
  lemma UnchangedKeysWereTested(states: seq<System>, events: seq<Event>, n: nat, m: nat)
    requires IsRun(states, events) && n < |events| && Activates(states[n], events[n])
    requires forall g | 0 <= g < n && (exists suite :: Grades(states[g], events[g], states[n].boundRun, suite)) :: m <= g
    requires forall i | m <= i < n :: !Registers(states[i], events[i])
    ensures ActiveKeysWereTested(states[n])
  {
    hide Registers, Grades;
    var r, gA, rA, gB, rB := ActivatedKeysWereTestedExactlyWhen(states, events, n);
    assert r == rA == rB;
  }

  // ---------------------------------------------------------------------------
  // Registration and activation, from the calls alone
  // ---------------------------------------------------------------------------

  /** A registration is accepted exactly for seven 32-byte keys with positive thresholds, before activation. */
  lemma RegistersExactlyWhen(s: System, e: Event)
    ensures Registers(s, e) <==>
            && e.EvAddKeys? && s.op.stage.Pending?
            && (e.algo == "" || e.algo == "ed25519")
            && |e.pubs| == 7 && (forall i | 0 <= i < 7 :: |e.pubs[i]| == 32)
            && |e.thresholds| == 7 && (forall i | 0 <= i < 7 :: e.thresholds[i] > 0)
  {
  }

  /** The i-th key is filed under index i, unused, with the i-th threshold. */
  ghost predicate Filed(rows: seq<KeyRow>, pubs: seq<Bytes>, thresholds: seq<int>) {
    && |rows| == |pubs| == |thresholds| == 7
    && forall i | 0 <= i < 7 :: thresholds[i] > 0 && rows[i] == KeyRow(i, pubs[i], "ed25519", Active, 0, thresholds[i])
  }

  lemma FiledStep(s: System, e: Event)
    requires Registers(s, e)
    ensures Filed(Next(s, e).op.rows, e.pubs, e.thresholds)
  {
  }

  /** In every run a pending, unrevoked operator has the keys of the last accepted registration, each under its own index. */
  lemma {:induction false} KeysAreFiled(states: seq<System>, events: seq<Event>, n: nat, r: nat)
    requires IsRun(states, events) && n <= |events| && states[n].op.stage.Pending? && states[n].op.status.InForce?
    requires LastRegistration(states, events, n, r)
    ensures Filed(states[n].op.rows, events[r].pubs, events[r].thresholds)
  {
    hide Registers, Filed, Next;
    assert states[n] == Next(states[n - 1], events[n - 1]);
    if r == n - 1 {
      FiledStep(states[r], events[r]);
    } else {
      PendingStep(states[n - 1], events[n - 1]);
      KeysAreFiled(states, events, n - 1, r);
    }
  }

  lemma FiledKeyMap(rows: seq<KeyRow>, pubs: seq<Bytes>, thresholds: seq<int>, i: int)
    requires Filed(rows, pubs, thresholds) && 0 <= i < 7
    ensures i in ActiveMap(rows) && ActiveMap(rows)[i] == KeyRecord(pubs[i], "ed25519")
  {
    assert ActiveAt(rows[i], i);
  }

  lemma ActivationStep(s: System, e: Event)
    requires Activates(s, e)
    ensures s.op.stage.Pending? && s.op.status.InForce? && s.op.rows != []
    ensures Next(s, e) == s.(op := s.op.(stage := Activated))
  {
  }

  /** The key map an activation opens holds under each index the key registered there. */
  lemma ActivationOpensRegisteredKeys(states: seq<System>, events: seq<Event>, n: nat, i: int) returns (r: int)
    requires IsRun(states, events) && n < |events| && Activates(states[n], events[n]) && 0 <= i < 7
    ensures LastRegistration(states, events, n, r)
    ensures var km := GatedKeyMap(states[n + 1].op);
            km.Some? && i in km.value && km.value[i] == KeyRecord(events[r].pubs[i], "ed25519")
  {
    hide Filed, Next, Activates, GatedKeyMap, AddKeys;
    ActivationStep(states[n], events[n]);
    r := KeysAreLastRegistered(states, events, n);
    KeysAreFiled(states, events, n, r);
    assert states[n + 1] == Next(states[n], events[n]);
    RunKeepsInv(states, events, n + 1);
    KeyMapExactlyWhenInForce(states, events, n + 1);
    FiledKeyMap(states[n].op.rows, events[r].pubs, events[r].thresholds, i);
  }

  /** The stored verdict says passed. */
  predicate StoredPass(s: System, run: int, suite: Suite) {
    run in s.op.runs && suite in s.op.runs[run] && s.op.runs[run][suite]
  }

  predicate GradesPass(s: System, e: Event, run: int, suite: Suite) {
    Grades(s, e, run, suite) && e.verdict
  }

  /** The first grading of the suite in the run, which is the one that counts, passed. */
  ghost predicate GradedPassed(states: seq<System>, events: seq<Event>, run: int, suite: Suite, n: nat)
    requires n <= |events| < |states|
  {
    exists g: nat :: g < n && GradesPass(states[g], events[g], run, suite)
  }

  lemma VerdictStep(s: System, e: Event, run: int, suite: Suite)
    ensures StoredPass(Next(s, e), run, suite) <==> StoredPass(s, run, suite) || GradesPass(s, e, run, suite)
  {
    hide KeysetDigest, ActivePubs, RecordUsage, Rotate, GatedKeyMap, NewRows, RevokeAll;
  }

  lemma {:induction false} VerdictsAreGradings(states: seq<System>, events: seq<Event>, n: nat, run: int, suite: Suite)
    requires IsRun(states, events) && n <= |events|
    ensures StoredPass(states[n], run, suite) <==> GradedPassed(states, events, run, suite, n)
  {
    hide Next, GradesPass;
    if n > 0 {
      VerdictsAreGradings(states, events, n - 1, run, suite);
      assert states[n] == Next(states[n - 1], events[n - 1]);
      VerdictStep(states[n - 1], events[n - 1], run, suite);
      if g: nat :| g < n && GradesPass(states[g], events[g], run, suite) {
        assert g < n - 1 ==> GradedPassed(states, events, run, suite, n - 1);
      }
    }
  }

  /** A finalize at f of a run whose three suites passed before it, with no registration since. */
  ghost predicate PassedAt(states: seq<System>, events: seq<Event>, f: nat, n: nat)
    requires n <= |events| < |states|
  {
    && f < n && events[f].EvFinalize?
    && GradedPassed(states, events, events[f].run, SuiteA, f) && GradedPassed(states, events, events[f].run, SuiteB, f)
    && GradedPassed(states, events, events[f].run, SuiteC, f)
    && forall i | f <= i < n :: !Registers(states[i], events[i])
  }

  ghost predicate HasPass(states: seq<System>, events: seq<Event>, n: nat)
    requires n <= |events| < |states|
  {
    exists f: nat :: PassedAt(states, events, f, n)
  }

  lemma PassStep(s: System, e: Event)
    requires Next(s, e).op.stage.Pending? && Next(s, e).op.status.InForce?
    ensures var finalized := e.EvFinalize? && FinalizeRun(s.op, e.run).error.None?;
            && (Registers(s, e) ==> Next(s, e).op.pass.None?)
            && (finalized ==> Next(s, e).op.pass == Some(KeysetDigest(ActivePubs(s.op.rows))) && ActiveCount(s.op.rows) == KEY_INDEX_COUNT)
            && (!Registers(s, e) && !finalized ==> Next(s, e).op.pass == s.op.pass)
  {
    hide KeysetDigest, ActivePubs, RecordUsage, Rotate, GatedKeyMap, NewRows, RevokeAll;
  }

  /** The pass, if any, is on the keys active now. */
  ghost predicate PassIsCurrent(op: Operator) {
    op.pass.Some? ==> ActiveCount(op.rows) == KEY_INDEX_COUNT && op.pass.value == KeysetDigest(ActivePubs(op.rows))
  }

  lemma FinalizesExactlyWhen(states: seq<System>, events: seq<Event>, f: nat)
    requires IsRun(states, events) && f < |events| && events[f].EvFinalize?
    requires states[f].op.stage.Pending? && states[f].op.status.InForce?
    ensures FinalizeRun(states[f].op, events[f].run).error.None? <==>
            && GradedPassed(states, events, events[f].run, SuiteA, f) && GradedPassed(states, events, events[f].run, SuiteB, f)
            && GradedPassed(states, events, events[f].run, SuiteC, f)
  {
    hide Registers, GradedPassed, KeysetDigest;
    var run := events[f].run;
    VerdictsAreGradings(states, events, f, run, SuiteA);
    VerdictsAreGradings(states, events, f, run, SuiteB);
    VerdictsAreGradings(states, events, f, run, SuiteC);
    var r := KeysAreLastRegistered(states, events, f);
    if r >= 0 {
      RegisteredCount(states, events, f, r);
    }
  }

  /** Short of a pass of every suite the run's row is failed and finished once A and B are graded, and running before; its hash stays. */
  lemma NotReadyExactlyWhen(op: Operator, run: int)
    requires run in op.runs
    ensures var v := op.runs[run];
            var outcome := FinalizeRun(op, run);
            && (outcome.error == Some(ConformanceNotReady) <==> exists suite: Suite :: !Passed(v, suite))
            && (outcome.error == Some(ConformanceNotReady) ==>
                  && run in outcome.op.runRows && outcome.op.runRows[run].keysetHash == RunRowOf(op, run).keysetHash
                  && outcome.op.runRows[run].status == (if SuiteA in v && SuiteB in v then RunFailed else RunRunning)
                  && (outcome.op.runRows[run].finished <==> (SuiteA in v && SuiteB in v) || RunRowOf(op, run).finished))
  {
    if AllPassed(op.runs[run]) {
      forall suite: Suite ensures Passed(op.runs[run], suite) {
        match suite
        case SuiteA =>
        case SuiteB =>
        case SuiteC =>
      }
    }
  }

  lemma RegisteredCount(states: seq<System>, events: seq<Event>, n: nat, r: nat)
    requires IsRun(states, events) && n <= |events| && LastRegistration(states, events, n, r)
    requires ActivePubs(states[n].op.rows) == events[r].pubs
    ensures ActiveCount(states[n].op.rows) == KEY_INDEX_COUNT
  {
  }

  lemma {:induction false} PassExactlyWhen(states: seq<System>, events: seq<Event>, n: nat)
    requires IsRun(states, events) && n <= |events| && states[n].op.stage.Pending? && states[n].op.status.InForce?
    ensures states[n].op.pass.Some? <==> HasPass(states, events, n)
    ensures PassIsCurrent(states[n].op)
  {
    hide Next, Registers, GradedPassed, FinalizeRun, KeysetDigest;
    if n > 0 {
      var m := n - 1;
      assert states[n] == Next(states[m], events[m]);
      PendingStep(states[m], events[m]);
      PassStep(states[m], events[m]);
      PassExactlyWhen(states, events, m);
      if events[m].EvFinalize? {
        FinalizesExactlyWhen(states, events, m);
      }
      PassedAtStep(states, events, m);
    }
  }

  lemma PassedAtStep(states: seq<System>, events: seq<Event>, m: nat)
    requires |states| == |events| + 1 && m < |events|
    ensures var passed := events[m].EvFinalize? && GradedPassed(states, events, events[m].run, SuiteA, m)
                         && GradedPassed(states, events, events[m].run, SuiteB, m) && GradedPassed(states, events, events[m].run, SuiteC, m);
            HasPass(states, events, m + 1) <==>
            !Registers(states[m], events[m]) && (passed || HasPass(states, events, m))
  {
    hide Registers, GradedPassed;
    var next := m + 1;
    if HasPass(states, events, next) {
      var f: nat :| PassedAt(states, events, f, next);
      assert f < m ==> PassedAt(states, events, f, m);
    }
    if !Registers(states[m], events[m]) {
      if HasPass(states, events, m) {
        var f: nat :| PassedAt(states, events, f, m);
        assert PassedAt(states, events, f, next);
      }
      if events[m].EvFinalize? && GradedPassed(states, events, events[m].run, SuiteA, m)
         && GradedPassed(states, events, events[m].run, SuiteB, m) && GradedPassed(states, events, events[m].run, SuiteC, m) {
        assert PassedAt(states, events, m, next);
      }
    }
  }

  lemma FlagStep(s: System, e: Event)
    ensures Next(s, e).op.status.RevokedForGood? <==> s.op.status.RevokedForGood? || e.EvRevoke? || e.EvDisconnect?
    ensures Next(s, e).op.emailVerified <==> s.op.emailVerified || e.EvEmailVerified?
  {
    hide KeysetDigest, ActivePubs, RecordUsage, Rotate, GatedKeyMap, NewRows, RevokeAll;
  }

  lemma {:induction false} FlagsExactlyWhen(states: seq<System>, events: seq<Event>, n: nat)
    requires IsRun(states, events) && n <= |events|
    ensures states[n].op.status.RevokedForGood? <==> exists i :: 0 <= i < n && (events[i].EvRevoke? || events[i].EvDisconnect?)
    ensures states[n].op.emailVerified <==> exists i :: 0 <= i < n && events[i].EvEmailVerified?
  {
    hide Next;
    if n > 0 {
      FlagsExactlyWhen(states, events, n - 1);
      assert states[n] == Next(states[n - 1], events[n - 1]);
      FlagStep(states[n - 1], events[n - 1]);
    }
  }

  /**
   A pending operator is activated exactly when it was never revoked, its email was verified,
   and a run whose three suites passed was finalized after the last accepted registration.
   */
  lemma ActivatesExactlyWhen(states: seq<System>, events: seq<Event>, n: nat)
    requires IsRun(states, events) && n < |events| && events[n].EvAutoActivate? && states[n].op.stage.Pending?
    ensures Activates(states[n], events[n]) <==>
            && (forall i | 0 <= i < n :: !events[i].EvRevoke? && !events[i].EvDisconnect?)
            && (exists i :: 0 <= i < n && events[i].EvEmailVerified?)
            && HasPass(states, events, n)
  {
    hide HasPass, KeysetDigest;
    FlagsExactlyWhen(states, events, n);
    if states[n].op.status.InForce? {
      PassExactlyWhen(states, events, n);
    }
  }

  function SameKeys(b: bv8): (keys: seq<Bytes>)
    ensures |keys| == KEY_INDEX_COUNT && AllOfLength(keys, KEY_BYTES)
  {
    seq(KEY_INDEX_COUNT, _ => seq(KEY_BYTES, _ => b))
  }

  const ONES := [1, 1, 1, 1, 1, 1, 1]

  function RowsOf(b: bv8): seq<KeyRow> {
    NewRows(SameKeys(b), ED25519, ONES, KEY_INDEX_COUNT)
  }

  lemma PubsOfRows(b: bv8)
    ensures ActivePubs(RowsOf(b)) == SameKeys(b)
  {
    AllActivePubs(SameKeys(b), ED25519, ONES, KEY_INDEX_COUNT);
    assert SameKeys(b)[..KEY_INDEX_COUNT] == SameKeys(b);
  }

  lemma Graded(s: System, suite: Suite)
    requires 0 in s.op.runs && suite !in s.op.runs[0]
    ensures var s' := Next(s, EvGrade(0, suite, true));
            s'.op == s.op.(runs := s.op.runs[0 := s.op.runs[0][suite := true]])
            && s'.gradedUnder == s.gradedUnder[(0, suite) := ActivePubs(s.op.rows)]
  {
  }

  lemma Registered(s: System, b: bv8)
    requires s.op.stage.Pending?
    ensures Next(s, EvAddKeys(SameKeys(b), ED25519, ONES)) == s.(op := s.op.(rows := RowsOf(b), pass := None))
  {
  }

  lemma Finalized(s: System, b: bv8)
    requires s.op.rows == RowsOf(b) && 0 in s.op.runs && AllPassed(s.op.runs[0])
    ensures var hash := Some(KeysetDigest(SameKeys(b)));
            Next(s, EvFinalize(0)) == s.(op := s.op.(pass := hash, runRows := s.op.runRows[0 := RunRow(RunPassed, hash, true)]),
                                         boundRun := 0, boundKeys := SameKeys(b))
  {
    PubsOfRows(b);
  }

  lemma Ready(s: System, b: bv8)
    requires s.op.rows == RowsOf(b) && s.op.stage.Pending? && s.op.status.InForce? && s.op.emailVerified
    requires s.op.pass == Some(KeysetDigest(SameKeys(b)))
    ensures Activates(s, EvAutoActivate)
  {
    PubsOfRows(b);
  }

  lemma KeysDiffer(b: bv8, c: bv8)
    requires b != c
    ensures multiset(SameKeys(b)) != multiset(SameKeys(c))
  {
    assert SameKeys(b)[0] in multiset(SameKeys(b));
    forall k | k in multiset(SameKeys(c)) ensures k != SameKeys(b)[0] {
      assert k[0] == c && SameKeys(b)[0][0] == b;
    }
  }

  lemma StartsRun(s: System, b: bv8)
    requires s.op == NewOperator().(rows := RowsOf(b))
    ensures Next(s, EvStartRun(0)) == s.(op := s.op.(runs := map[0 := map[]], runRows := map[0 := RunRow(RunRunning, None, false)]))
  {
    PubsOfRows(b);
  }

  lemma AllGraded(s0: System, s1: System, s2: System, s3: System)
    requires s0.op.runs == map[0 := map[]]
    requires s1 == Next(s0, EvGrade(0, SuiteA, true)) && s2 == Next(s1, EvGrade(0, SuiteB, true))
    requires s3 == Next(s2, EvGrade(0, SuiteC, true))
    ensures s3.op == s0.op.(runs := map[0 := map[SuiteA := true, SuiteB := true, SuiteC := true]])
    ensures (0, SuiteA) in s3.gradedUnder && s3.gradedUnder[(0, SuiteA)] == ActivePubs(s0.op.rows)
  {
    Graded(s0, SuiteA);
    Graded(s1, SuiteB);
    Graded(s2, SuiteC);
  }

  lemma RebindHead(s0: System, s1: System, s2: System)
    requires s0 == Initial() && s1 == Next(s0, EvAddKeys(SameKeys(1), ED25519, ONES)) && s2 == Next(s1, EvStartRun(0))
    ensures s2.op == NewOperator().(rows := RowsOf(1), runs := map[0 := map[]], runRows := map[0 := RunRow(RunRunning, None, false)])
  {
    Registered(s0, 1);
    StartsRun(s1, 1);
  }

  lemma RebindTail(s5: System, s6: System, s7: System, s8: System)
    requires s5.op.stage.Pending? && s5.op.status.InForce? && 0 in s5.op.runs && AllPassed(s5.op.runs[0])
    requires (0, SuiteA) in s5.gradedUnder && s5.gradedUnder[(0, SuiteA)] == SameKeys(1)
    requires s6 == Next(s5, EvAddKeys(SameKeys(2), ED25519, ONES)) && s7 == Next(s6, EvFinalize(0)) && s8 == Next(s7, EvEmailVerified)
    ensures Activates(s8, EvAutoActivate) && !ActiveKeysWereTested(s8)
  {
    Registered(s5, 2);
    Finalized(s6, 2);
    Ready(s8, 2);
    PubsOfRows(2);
    KeysDiffer(1, 2);
  }

  /**
   So a run can activate a key set that answered no challenge: register keys, pass the three
   suites, register other keys, finalize the same run, verify the email, activate.
   */
  lemma UntestedKeysCanActivate(
    s0: System, s1: System, s2: System, s3: System, s4: System, s5: System, s6: System, s7: System, s8: System)
    requires s0 == Initial() && s1 == Next(s0, EvAddKeys(SameKeys(1), ED25519, ONES)) && s2 == Next(s1, EvStartRun(0))
    requires s3 == Next(s2, EvGrade(0, SuiteA, true)) && s4 == Next(s3, EvGrade(0, SuiteB, true))
    requires s5 == Next(s4, EvGrade(0, SuiteC, true))
    requires s6 == Next(s5, EvAddKeys(SameKeys(2), ED25519, ONES)) && s7 == Next(s6, EvFinalize(0)) && s8 == Next(s7, EvEmailVerified)
    ensures Activates(s8, EvAutoActivate) && !ActiveKeysWereTested(s8)
  {
    RebindHead(s0, s1, s2);
    AllGraded(s2, s3, s4, s5);
    PubsOfRows(1);
    RebindTail(s5, s6, s7, s8);
  }

  // ---------------------------------------------------------------------------
  // The stored row, updated in transactions
  // ---------------------------------------------------------------------------

  class OperatorStore {
    var status: Status
    var stage: Stage
    var emailVerified: bool
    var pass: Option<Digest>
    var rows: seq<KeyRow>
    var runs: map<int, Verdicts>
    var runRows: map<int, RunRow>

    ghost function Contents(): Operator
      reads this
    {
      Operator(status, stage, emailVerified, pass, rows, runs, runRows)
    }

    constructor ()
      ensures Contents() == NewOperator()
    {
      status, stage, emailVerified, pass, rows, runs, runRows := InForce, Pending, false, None, [], map[], map[];
    }

    method ActiveKeysetHash() returns (digest: Digest, count: nat)
      ensures digest == KeysetDigest(ActivePubs(rows)) && count == ActiveCount(rows)
    {
      var pubs: seq<Bytes> := [];
      for i := 0 to |rows|
        invariant pubs == ActivePubs(rows[..i])
      {
        assert rows[..i + 1][..i] == rows[..i];
        if rows[i].state.Active? {
          pubs := pubs + [rows[i].pub];
        }
      }
      assert rows[..|rows|] == rows;
      digest := HashSortedPubkeys(pubs);
      count := |pubs|;
    }

    /** The rows are inserted one by one; a bad threshold rolls the whole registration back. */
    method RegisterKeys(pubs: seq<Bytes>, algo: string, thresholds: seq<int>) returns (error: Option<Error>)
      modifies this
      ensures Outcome(Contents(), error) == AddKeys(old(Contents()), pubs, algo, thresholds)
    {
      var name := algo;
      if name == "" {
        name := ED25519;
      }
      if name != ED25519 {
        return Some(UnsupportedAlgo);
      }
      if |pubs| != KEY_INDEX_COUNT {
        return Some(KeysetCountMismatch);
      }
      for i := 0 to |pubs|
        invariant forall k | 0 <= k < i :: |pubs[k]| == KEY_BYTES
      {
        if |pubs[i]| != KEY_BYTES {
          return Some(BadKeyLength);
        }
      }
      if |thresholds| != KEY_INDEX_COUNT {
        return Some(KeysetCountMismatch);
      }
      if stage.Activated? {
        return Some(AlreadyActive);
      }
      var inserted: seq<KeyRow> := [];
      for i := 0 to KEY_INDEX_COUNT
        invariant forall k | 0 <= k < i :: thresholds[k] > 0
        invariant inserted == NewRows(pubs, ED25519, thresholds, i)
      {
        if thresholds[i] <= 0 {
          return Some(BadThreshold);
        }
        inserted := inserted + [KeyRow(i, pubs[i], name, Active, 0, thresholds[i])];
      }
      rows, pass := inserted, None;
      error := None;
    }

    /** Binds the pass to whatever keys are active at this moment. */
    method Finalize(run: int) returns (error: Option<Error>)
      modifies this
      ensures Outcome(Contents(), error) == FinalizeRun(old(Contents()), run)
    {
      if run !in runs {
        return Some(RunNotFound);
      }
      var suites := [SuiteA, SuiteB, SuiteC];
      var allPassed, anyUnconsumed := true, false;
      for i := 0 to 3
        invariant allPassed <==> forall k | 0 <= k < i :: Passed(runs[run], suites[k])
        invariant anyUnconsumed <==> exists k | 0 <= k < i :: suites[k] != SuiteC && suites[k] !in runs[run]
      {
        if suites[i] !in runs[run] {
          allPassed := false;
          if suites[i] != SuiteC {
            anyUnconsumed := true;
          }
        } else if !runs[run][suites[i]] {
          allPassed := false;
        }
      }
      assert allPassed <==> Passed(runs[run], suites[0]) && Passed(runs[run], suites[1]) && Passed(runs[run], suites[2]);
      assert !anyUnconsumed <==> suites[0] in runs[run] && suites[1] in runs[run];
      var row := RunRowOf(Operator(status, stage, emailVerified, pass, rows, runs, runRows), run);
      if !allPassed {
        if anyUnconsumed {
          row := row.(status := RunRunning);
        } else {
          row := row.(status := RunFailed, finished := true);
        }
        runRows := runRows[run := row];
        return Some(ConformanceNotReady);
      }
      var digest, count := ActiveKeysetHash();
      if count != KEY_INDEX_COUNT {
        return Some(KeysetCountMismatch);
      }
      runRows := runRows[run := RunRow(RunPassed, Some(digest), true)];
      pass := Some(digest);
      error := None;
    }

    /** Re-checks every gate and flips the stage. */
    method Activate() returns (error: Option<Error>)
      modifies this
      ensures Outcome(Contents(), error) == AutoActivate(old(Contents()))
    {
      if stage.Activated? {
        return None;
      }
      if status != InForce || !emailVerified || pass.None? {
        return Some(ActivationPreconditions);
      }
      var current, count := ActiveKeysetHash();
      if count != KEY_INDEX_COUNT {
        return Some(KeysetCountMismatch);
      }
      if current != pass.value {
        return Some(KeysetHashMismatch);
      }
      stage := Activated;
      error := None;
    }

    method Disconnect()
      modifies this
      ensures Contents() == old(Contents()).(status := RevokedForGood, rows := RevokeAll(old(rows)))
    {
      status := RevokedForGood;
      rows := RevokeAll(rows);
    }
  }
}
