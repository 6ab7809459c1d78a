/**
 The gate in front of the node-side handlers: freshness, key lookup and signature check,
 the anti-replay transaction, then usage counting.  Every database transaction of the gate
 may fail, and may even have committed when it reports failure.
 */
module OperatorAuth {
  import opened Wrappers
  import opened Sequences
  import opened ReplayWindow
  import opened KeyRing
  import opened ByteOrder
  import On = Onboarding

  const MINUTE: int := 60_000_000_000
  const TIMESTAMP_WINDOW: int := 5 * MINUTE
  const NONCE_RETENTION: int := 10 * MINUTE

  // ---------------------------------------------------------------------------
  // Freshness on 64-bit timestamps
  // ---------------------------------------------------------------------------

  /** Two's-complement wrap-around of a 64-bit signed subtraction. */
  function WrapInt64(x: int): bigint {
    (x + 0x8000_0000_0000_0000) % 0x1_0000_0000_0000_0000 - 0x8000_0000_0000_0000
  }

  predicate FreshTimestamp(now: bigint, ts: bigint) {
    -TIMESTAMP_WINDOW <= WrapInt64(now - ts) <= TIMESTAMP_WINDOW
  }

  /** The wrapped comparison is the exact one unless the clock is within the window of either end of its range. */
  lemma FreshTimestampIsExact(now: bigint, ts: bigint)
    requires -0x8000_0000_0000_0000 + TIMESTAMP_WINDOW <= now < 0x8000_0000_0000_0000 - TIMESTAMP_WINDOW
    ensures FreshTimestamp(now, ts) <==> -TIMESTAMP_WINDOW <= now - ts <= TIMESTAMP_WINDOW
  {
    var d := now - ts;
    if d >= 0x8000_0000_0000_0000 {
      assert (d + 0x8000_0000_0000_0000) % 0x1_0000_0000_0000_0000 == d - 0x8000_0000_0000_0000;
    } else if d < -0x8000_0000_0000_0000 {
      assert (d + 0x8000_0000_0000_0000) % 0x1_0000_0000_0000_0000 == d + 0x1_8000_0000_0000_0000;
    }
  }

  // ---------------------------------------------------------------------------
  // State and requests
  // ---------------------------------------------------------------------------

  type Nonce = Bytes

  /** The tables the gate reads and writes; a nonce is a primary key across operators and scopes. */
  datatype Db = Db(operators: map<string, On.System>, windows: map<(string, string), Row>, nonces: map<Nonce, int>)

  /** A decoded transmission; `signed` is the answer of the two signature checks over its fields. */
  datatype Tx = Tx(operator: string, ts: bigint, nonce: Nonce, s: uint64, algo: string, idx0: int, idx1: int, signed: bool)

  datatype Header = Absent | Malformed | Decoded(tx: Tx)

  datatype Fault = NoFault | RolledBack | CommittedAnyway

  /** `now` is read at the freshness check and `later` when the nonce expiry is computed. */
  datatype Request = Request(coordinator: string, header: Header, now: bigint, later: bigint,
                             lookupFails: bool, replayFault: Fault, usageFault: Fault)

  datatype Outcome = Unauthorized | Replayed | ServerError | Served(swapRequired: bool)

  /** The protocol's check against a key map: distinct indices, both present, one algorithm, good signatures. */
  predicate TxVerified(tx: Tx, km: Option<map<int, KeyRecord>>) {
    && km.Some?
    && tx.idx0 != tx.idx1 && tx.idx0 in km.value && tx.idx1 in km.value
    && km.value[tx.idx0].algo == tx.algo == km.value[tx.idx1].algo
    && tx.signed
  }

  function GateKeys(db: Db, operator: string): Option<map<int, KeyRecord>> {
    if operator in db.operators then On.GatedKeyMap(db.operators[operator].op) else None
  }

  function Window(db: Db, operator: string, coordinator: string): Row {
    if (operator, coordinator) in db.windows then db.windows[(operator, coordinator)] else ZeroRow()
  }

  /** Nonce insert and window advance in one transaction; None leaves nothing behind. */
  function CheckAndAdvance(db: Db, operator: string, coordinator: string, s: uint64, nonce: Nonce, expiry: int): Option<Db> {
    if nonce in db.nonces then None
    else
      match Advance(Window(db, operator, coordinator), s)
      case None => None
      case Some(row) => Some(db.(windows := db.windows[(operator, coordinator) := row], nonces := db.nonces[nonce := expiry]))
  }

  function CountUse(db: Db, tx: Tx): Db {
    if tx.operator !in db.operators then db
    else db.(operators := db.operators[tx.operator := On.Transmit(db.operators[tx.operator], tx.idx0, tx.idx1)])
  }

  predicate SwapRequired(db: Db, tx: Tx) {
    tx.operator in db.operators && RecordUsage(db.operators[tx.operator].op.rows, tx.idx0, tx.idx1, MIN_ACTIVE_KEYS).swap
  }

  /** Everything before the first write. */
  predicate Admits(db: Db, r: Request) {
    && r.header.Decoded?
    && FreshTimestamp(r.now, r.header.tx.ts)
    && !r.lookupFails
    && TxVerified(r.header.tx, GateKeys(db, r.header.tx.operator))
  }

  datatype Reply = Reply(db: Db, outcome: Outcome)

  function Authenticate(db: Db, r: Request): Reply {
    if !Admits(db, r) then Reply(db, Unauthorized)
    else
      var tx := r.header.tx;
      match CheckAndAdvance(db, tx.operator, r.coordinator, tx.s, tx.nonce, r.later + NONCE_RETENTION)
      case None => Reply(db, Replayed)
      case Some(advanced) =>
        if r.replayFault.RolledBack? then Reply(db, Unauthorized)
        else if r.replayFault.CommittedAnyway? then Reply(advanced, Unauthorized)
        else if r.usageFault.RolledBack? then Reply(advanced, ServerError)
        else if r.usageFault.CommittedAnyway? then Reply(CountUse(advanced, tx), ServerError)
        else Reply(CountUse(advanced, tx), Served(SwapRequired(advanced, tx)))
  }

  /** A refused replay changes nothing, and neither does any refusal whose transaction rolled back. */
  lemma RefusalLeavesStateAlone(db: Db, r: Request)
    ensures Authenticate(db, r).outcome.Replayed? ==> Authenticate(db, r).db == db
    ensures Authenticate(db, r).outcome.Unauthorized? && !r.replayFault.CommittedAnyway? ==> Authenticate(db, r).db == db
  {
  }

  // ---------------------------------------------------------------------------
  // Runs: requests, administration and nonce sweeps, one after the other
  // ---------------------------------------------------------------------------

  datatype Action =
    | Handle(request: Request)
    | CreateOperator(id: string)
    | Administer(id: string, event: On.Event)
    | ReserveNonce(nonce: Nonce, expiry: int)
    | SweepNonces

  /** An action with the times at which it starts and ends. */
  datatype Event = Event(start: bigint, finish: bigint, action: Action)

  function Swept(nonces: map<Nonce, int>, now: int): map<Nonce, int> {
    map k | k in nonces && nonces[k] >= now :: nonces[k]
  }

  function Next(db: Db, e: Event): Db {
    match e.action
    case Handle(r) => Authenticate(db, r).db
    case CreateOperator(id) => if id in db.operators then db else db.(operators := db.operators[id := On.Initial()])
    case Administer(id, event) =>
      if id !in db.operators || event.EvTransmission? then db
      else db.(operators := db.operators[id := On.Next(db.operators[id], event)])
    case ReserveNonce(nonce, expiry) => if nonce in db.nonces then db else db.(nonces := db.nonces[nonce := expiry])
    case SweepNonces => db.(nonces := Swept(db.nonces, e.start))
  }

  /** A real clock: each event ends no earlier than it starts, the next starts after it, far from the ends of its range. */
  ghost predicate Clocked(e: Event) {
    && -0x8000_0000_0000_0000 + TIMESTAMP_WINDOW <= e.start <= e.finish < 0x8000_0000_0000_0000 - TIMESTAMP_WINDOW
    && (e.action.Handle? ==> e.action.request.now == e.start && e.action.request.later == e.finish)
  }

  /** Requests, administration and sweeps one after another, from empty tables. */
  ghost predicate IsRun(dbs: seq<Db>, events: seq<Event>) {
    && |dbs| == |events| + 1
    && dbs[0] == Db(map[], map[], map[])
    && (forall i {:trigger Marked(i)} | 0 <= i < |events| :: Clocked(events[i]) && dbs[i + 1] == Next(dbs[i], events[i]))
    && (forall i, j | 0 <= i < j < |events| :: events[i].finish <= events[j].start)
  }

  lemma StepOf(dbs: seq<Db>, events: seq<Event>, i: nat)
    requires IsRun(dbs, events) && i < |events|
    ensures Clocked(events[i]) && dbs[i + 1] == Next(dbs[i], events[i])
  {
    assert Marked(i);
  }

  /** The request's anti-replay transaction committed, whatever the caller was told. */
  predicate Consumes(db: Db, e: Event) {
    && e.action.Handle?
    && var r := e.action.request;
    && Admits(db, r) && !r.replayFault.RolledBack?
    && CheckAndAdvance(db, r.header.tx.operator, r.coordinator, r.header.tx.s, r.header.tx.nonce, r.later + NONCE_RETENTION).Some?
  }

  predicate ServedBy(db: Db, e: Event) {
    e.action.Handle? && Authenticate(db, e.action.request).outcome.Served?
  }

  /** The request's usage transaction committed. */
  predicate Counts(db: Db, e: Event) {
    Consumes(db, e) && e.action.request.replayFault.NoFault? && !e.action.request.usageFault.RolledBack?
  }

  function TxOf(e: Event): Tx
    requires e.action.Handle? && e.action.request.header.Decoded?
  {
    e.action.request.header.tx
  }

  predicate For(e: Event, operator: string, coordinator: string) {
    e.action.Handle? && e.action.request.header.Decoded? && TxOf(e).operator == operator && e.action.request.coordinator == coordinator
  }

  // ---------------------------------------------------------------------------
  // No sequence number twice
  // ---------------------------------------------------------------------------

  ghost function SeenSeqs(dbs: seq<Db>, events: seq<Event>, n: nat, operator: string, coordinator: string): set<uint64>
    requires n <= |events| < |dbs|
  {
    set i | 0 <= i < n && Consumes(dbs[i], events[i]) && For(events[i], operator, coordinator) :: TxOf(events[i]).s
  }

  lemma WindowStep(db: Db, e: Event, operator: string, coordinator: string)
    ensures if Consumes(db, e) && For(e, operator, coordinator)
            then Advance(Window(db, operator, coordinator), TxOf(e).s) == Some(Window(Next(db, e), operator, coordinator))
            else Window(Next(db, e), operator, coordinator) == Window(db, operator, coordinator)
  {
  }

  lemma SeenStep(dbs: seq<Db>, events: seq<Event>, m: nat, operator: string, coordinator: string)
    requires m < |events| < |dbs|
    ensures SeenSeqs(dbs, events, m + 1, operator, coordinator) ==
            SeenSeqs(dbs, events, m, operator, coordinator) +
            if Consumes(dbs[m], events[m]) && For(events[m], operator, coordinator) then {TxOf(events[m]).s} else {}
  {
  }

  lemma TracksStep(db: Db, e: Event, seen: set<uint64>, operator: string, coordinator: string)
    requires Represents(Window(db, operator, coordinator), seen)
    ensures Represents(Window(Next(db, e), operator, coordinator),
                       seen + if Consumes(db, e) && For(e, operator, coordinator) then {TxOf(e).s} else {})
  {
    WindowStep(db, e, operator, coordinator);
    if Consumes(db, e) && For(e, operator, coordinator) {
      AdvanceRefinesSet(Window(db, operator, coordinator), seen, TxOf(e).s);
    } else {
      assert seen + {} == seen;
    }
  }

  /** Whatever else the run does, the stored window stands for the numbers consumed by this operator here. */
  lemma {:induction false} WindowTracksConsumed(dbs: seq<Db>, events: seq<Event>, n: nat, operator: string, coordinator: string)
    requires IsRun(dbs, events) && n <= |events|
    ensures Represents(Window(dbs[n], operator, coordinator), SeenSeqs(dbs, events, n, operator, coordinator))
  {
    hide Next, Consumes;
    if n > 0 {
      WindowTracksConsumed(dbs, events, n - 1, operator, coordinator);
      SeenStep(dbs, events, n - 1, operator, coordinator);
      StepOf(dbs, events, n - 1);
      TracksStep(dbs[n - 1], events[n - 1], SeenSeqs(dbs, events, n - 1, operator, coordinator), operator, coordinator);
    }
  }

  /** No two requests of one operator at one coordinator consume the same number, whatever fails in between. */
  lemma SeqConsumedOnce(dbs: seq<Db>, events: seq<Event>, i: nat, j: nat)
    requires IsRun(dbs, events) && i < j < |events|
    requires Consumes(dbs[i], events[i]) && Consumes(dbs[j], events[j])
    requires TxOf(events[i]).operator == TxOf(events[j]).operator
    requires events[i].action.request.coordinator == events[j].action.request.coordinator
    ensures TxOf(events[i]).s != TxOf(events[j]).s
  {
    var operator, coordinator := TxOf(events[j]).operator, events[j].action.request.coordinator;
    WindowTracksConsumed(dbs, events, j, operator, coordinator);
    AdvanceRefinesSet(Window(dbs[j], operator, coordinator), SeenSeqs(dbs, events, j, operator, coordinator), TxOf(events[j]).s);
    assert For(events[i], operator, coordinator);
    assert TxOf(events[i]).s in SeenSeqs(dbs, events, j, operator, coordinator);
  }

  /** An admitted request with an unused nonce is refused exactly for a consumed or a stale number. */
  lemma RefusedExactlyWhenSeenOrStale(dbs: seq<Db>, events: seq<Event>, j: nat)
    requires IsRun(dbs, events) && j < |events| && events[j].action.Handle?
    requires Admits(dbs[j], events[j].action.request) && TxOf(events[j]).nonce !in dbs[j].nonces
    ensures var tx := TxOf(events[j]);
            Authenticate(dbs[j], events[j].action.request).outcome.Replayed? <==>
            exists x :: x in SeenSeqs(dbs, events, j, tx.operator, events[j].action.request.coordinator)
                        && (x == tx.s || x >= tx.s + WINDOW_BITS)
  {
    var operator, coordinator := TxOf(events[j]).operator, events[j].action.request.coordinator;
    WindowTracksConsumed(dbs, events, j, operator, coordinator);
    AdvanceRefinesSet(Window(dbs[j], operator, coordinator), SeenSeqs(dbs, events, j, operator, coordinator), TxOf(events[j]).s);
  }

  // ---------------------------------------------------------------------------
  // No transmission twice, even when nonces are swept
  // ---------------------------------------------------------------------------

  ghost predicate SweptAfter(events: seq<Event>, i: nat, n: nat)
    requires i < n <= |events|
  {
    exists k :: i < k < n && events[k].action.SweepNonces? && events[k].start > events[i].finish + NONCE_RETENTION
  }

  lemma NonceStep(db: Db, e: Event, nonce: Nonce)
    requires nonce in db.nonces
    ensures nonce in Next(db, e).nonces ==> Next(db, e).nonces[nonce] == db.nonces[nonce]
    ensures nonce !in Next(db, e).nonces ==> e.action.SweepNonces? && e.start > db.nonces[nonce]
  {
  }

  lemma {:induction false} NonceKeptUntilSwept(dbs: seq<Db>, events: seq<Event>, i: nat, n: nat)
    requires IsRun(dbs, events) && i < n <= |events| && Consumes(dbs[i], events[i])
    ensures SweptAfter(events, i, n)
            || (TxOf(events[i]).nonce in dbs[n].nonces
                && dbs[n].nonces[TxOf(events[i]).nonce] == events[i].finish + NONCE_RETENTION)
  {
    hide ReplayWindow.Advance, TxVerified, FreshTimestamp, On.Transmit;
    StepOf(dbs, events, n - 1);
    if n > i + 1 {
      NonceKeptUntilSwept(dbs, events, i, n - 1);
      if SweptAfter(events, i, n - 1) {
        var k :| i < k < n - 1 && events[k].action.SweepNonces? && events[k].start > events[i].finish + NONCE_RETENTION;
      } else {
        NonceStep(dbs[n - 1], events[n - 1], TxOf(events[i]).nonce);
      }
    }
  }

  /** A nonce is consumed again only if its row was swept after it expired, and then the new transmission is a later one. */
  lemma NonceConsumedOnce(dbs: seq<Db>, events: seq<Event>, i: nat, j: nat)
    requires IsRun(dbs, events) && i < j < |events|
    requires Consumes(dbs[i], events[i]) && Consumes(dbs[j], events[j])
    requires TxOf(events[i]).nonce == TxOf(events[j]).nonce
    ensures SweptAfter(events, i, j) && TxOf(events[i]).ts < TxOf(events[j]).ts
  {
    NonceKeptUntilSwept(dbs, events, i, j);
    var k :| i < k < j && events[k].action.SweepNonces? && events[k].start > events[i].finish + NONCE_RETENTION;
    assert events[k].finish <= events[j].start;
    StepOf(dbs, events, i);
    StepOf(dbs, events, j);
    StepOf(dbs, events, k);
    FreshTimestampIsExact(events[i].start, TxOf(events[i]).ts);
    FreshTimestampIsExact(events[j].start, TxOf(events[j]).ts);
  }

  /** Sweeping expired nonces never makes an accepted transmission acceptable again, at any coordinator. */
  lemma TransmissionConsumedOnce(dbs: seq<Db>, events: seq<Event>, i: nat, j: nat)
    requires IsRun(dbs, events) && i < j < |events|
    requires Consumes(dbs[i], events[i]) && Consumes(dbs[j], events[j])
    ensures TxOf(events[i]) != TxOf(events[j])
  {
    if TxOf(events[i]).nonce == TxOf(events[j]).nonce {
      NonceConsumedOnce(dbs, events, i, j);
    }
  }

  // ---------------------------------------------------------------------------
  // Usage
  // ---------------------------------------------------------------------------

  ghost function CountedFor(dbs: seq<Db>, events: seq<Event>, n: nat, operator: string): nat
    requires n <= |events| < |dbs|
  {
    if n == 0 then 0
    else CountedFor(dbs, events, n - 1, operator) +
         if Counts(dbs[n - 1], events[n - 1]) && TxOf(events[n - 1]).operator == operator then 1 else 0
  }

  lemma HandleStep(db: Db, r: Request, operator: string)
    requires operator in db.operators
    ensures var e := Event(r.now, r.later, Handle(r));
            var s := db.operators[operator];
            && operator in Authenticate(db, r).db.operators
            && Authenticate(db, r).db.operators[operator] ==
               if Counts(db, e) && r.header.tx.operator == operator
               then On.Transmit(s, r.header.tx.idx0, r.header.tx.idx1) else s
  {
    hide On.Transmit, ReplayWindow.Advance, TxVerified, FreshTimestamp, Window;
  }

  lemma TransmitCounts(s: On.System, idx0: int, idx1: int)
    requires On.GatedKeyMap(s.op).Some? && idx0 != idx1
    requires idx0 in On.GatedKeyMap(s.op).value && idx1 in On.GatedKeyMap(s.op).value
    ensures On.Transmit(s, idx0, idx1).counted == s.counted + 1
  {
  }

  lemma AdministerKeepsCount(s: On.System, e: On.Event)
    requires !e.EvTransmission?
    ensures On.Next(s, e).counted == s.counted
  {
  }

  lemma UsageStep(db: Db, e: Event, operator: string)
    requires operator in db.operators && On.Inv(db.operators[operator])
    ensures operator in Next(db, e).operators && On.Inv(Next(db, e).operators[operator])
    ensures Next(db, e).operators[operator].counted ==
            db.operators[operator].counted + if Counts(db, e) && TxOf(e).operator == operator then 1 else 0
  {
    hide On.Inv, On.Next, On.Transmit, On.GatedKeyMap, Authenticate, CheckAndAdvance;
    var s := db.operators[operator];
    match e.action
    case Administer(id, event) =>
      On.StepKeepsInv(s, event);
      if !event.EvTransmission? {
        AdministerKeepsCount(s, event);
      }
    case Handle(r) =>
      HandleStep(db, r, operator);
      if Counts(db, e) && r.header.tx.operator == operator {
        On.TransmissionKeeps(s, r.header.tx.idx0, r.header.tx.idx1);
        TransmitCounts(s, r.header.tx.idx0, r.header.tx.idx1);
      }
    case CreateOperator(id) =>
    case ReserveNonce(nonce, expiry) =>
    case SweepNonces =>
  }

  lemma UnknownStep(db: Db, e: Event, operator: string)
    requires operator !in db.operators
    ensures !(Counts(db, e) && TxOf(e).operator == operator)
    ensures operator in Next(db, e).operators ==> Next(db, e).operators[operator] == On.Initial()
  {
  }

  lemma {:induction false} UsageInvariant(dbs: seq<Db>, events: seq<Event>, n: nat, operator: string)
    requires IsRun(dbs, events) && n <= |events|
    ensures operator in dbs[n].operators ==>
            On.Inv(dbs[n].operators[operator]) && dbs[n].operators[operator].counted == CountedFor(dbs, events, n, operator)
    ensures operator !in dbs[n].operators ==> CountedFor(dbs, events, n, operator) == 0
  {
    hide Next, Counts;
    if n > 0 {
      UsageInvariant(dbs, events, n - 1, operator);
      StepOf(dbs, events, n - 1);
      if operator in dbs[n - 1].operators {
        UsageStep(dbs[n - 1], events[n - 1], operator);
      } else {
        UnknownStep(dbs[n - 1], events[n - 1], operator);
      }
    }
  }

  /** The usage recorded over all of an operator's key rows is exactly two per counted transmission. */
  lemma UsageIsTwiceCounted(dbs: seq<Db>, events: seq<Event>, n: nat, operator: string)
    requires IsRun(dbs, events) && n <= |events| && operator in dbs[n].operators
    ensures TotalUsage(dbs[n].operators[operator].op.rows) == 2 * CountedFor(dbs, events, n, operator)
  {
    UsageInvariant(dbs, events, n, operator);
  }

  /** A served request was consumed and counted; when nothing fails, consumed, counted and served are one. */
  lemma ServedIsCounted(db: Db, e: Event)
    ensures ServedBy(db, e) ==> Consumes(db, e) && Counts(db, e)
    ensures e.action.Handle? && e.action.request.replayFault.NoFault? && e.action.request.usageFault.NoFault? ==>
            (Consumes(db, e) <==> ServedBy(db, e)) && (Counts(db, e) <==> ServedBy(db, e))
  {
  }

  /** Only an activated operator that was never revoked is served, and it keeps three to seven keys. */
  lemma ServedOnlyInForce(dbs: seq<Db>, events: seq<Event>, n: nat)
    requires IsRun(dbs, events) && n < |events| && ServedBy(dbs[n], events[n])
    ensures var id := TxOf(events[n]).operator;
            && id in dbs[n].operators
            && var s := dbs[n].operators[id];
            && !s.revokedEver && s.op.stage.Activated? && s.op.emailVerified && s.op.pass.Some?
            && MIN_ACTIVE_KEYS <= ActiveCount(s.op.rows) <= KEY_INDEX_COUNT
  {
    UsageInvariant(dbs, events, n, TxOf(events[n]).operator);
  }

  // ---------------------------------------------------------------------------
  // What is answered, from the request and what the run did before
  // ---------------------------------------------------------------------------

  /** A fresh transmission with two good signatures by different active keys of an operator in force. */
  ghost predicate WellSigned(db: Db, r: Request) {
    && r.header.Decoded? && r.header.tx.signed
    && -300_000_000_000 <= r.now - r.header.tx.ts <= 300_000_000_000
    && r.header.tx.operator in db.operators
    && var s := db.operators[r.header.tx.operator];
    && s.op.stage.Activated? && !s.revokedEver
    && r.header.tx.idx0 != r.header.tx.idx1
    && HoldsKey(s.op.rows, r.header.tx.idx0, r.header.tx.algo) && HoldsKey(s.op.rows, r.header.tx.idx1, r.header.tx.algo)
  }

  /** The request left its nonce behind. */
  ghost predicate StoredNonce(dbs: seq<Db>, events: seq<Event>, i: nat)
    requires i < |events| < |dbs|
  {
    && events[i].action.Handle? && events[i].action.request.header.Decoded?
    && TxOf(events[i]).nonce !in dbs[i].nonces && TxOf(events[i]).nonce in dbs[i + 1].nonces
  }

  /** Its nonce is not stored, and no earlier request here used its number or one 256 or more above. */
  ghost predicate Unused(dbs: seq<Db>, events: seq<Event>, j: nat)
    requires j < |events| < |dbs| && events[j].action.Handle? && events[j].action.request.header.Decoded?
  {
    var tx, coordinator := TxOf(events[j]), events[j].action.request.coordinator;
    && tx.nonce !in dbs[j].nonces
    && forall i: nat | i < j && StoredNonce(dbs, events, i) && For(events[i], tx.operator, coordinator) ::
         TxOf(events[i]).s != tx.s && TxOf(events[i]).s < tx.s + 256
  }

  lemma StoresExactlyWhenConsumed(dbs: seq<Db>, events: seq<Event>, i: nat)
    requires IsRun(dbs, events) && i < |events|
    ensures StoredNonce(dbs, events, i) <==> Consumes(dbs[i], events[i])
  {
    hide ReplayWindow.Advance, TxVerified, FreshTimestamp, On.Transmit;
    StepOf(dbs, events, i);
  }

  lemma AdmitsExactlyWhen(dbs: seq<Db>, events: seq<Event>, j: nat)
    requires IsRun(dbs, events) && j < |events| && events[j].action.Handle?
    ensures Admits(dbs[j], events[j].action.request) <==> !events[j].action.request.lookupFails && WellSigned(dbs[j], events[j].action.request)
  {
    hide HoldsKey, KeyMap;
    var r := events[j].action.request;
    StepOf(dbs, events, j);
    if r.header.Decoded? {
      var tx := r.header.tx;
      FreshTimestampIsExact(r.now, tx.ts);
      UsageInvariant(dbs, events, j, tx.operator);
      if tx.operator in dbs[j].operators {
        var op := dbs[j].operators[tx.operator].op;
        KeyMapOfOneAlgo(op.rows, On.ED25519);
        HoldsKeyInMap(op.rows, tx.idx0, tx.algo);
        HoldsKeyInMap(op.rows, tx.idx1, tx.algo);
      }
    }
  }

  lemma UnusedExactlyWhen(dbs: seq<Db>, events: seq<Event>, j: nat)
    requires IsRun(dbs, events) && j < |events| && events[j].action.Handle? && events[j].action.request.header.Decoded?
    ensures var r := events[j].action.request;
            Unused(dbs, events, j) <==>
            CheckAndAdvance(dbs[j], r.header.tx.operator, r.coordinator, r.header.tx.s, r.header.tx.nonce, r.later + NONCE_RETENTION).Some?
  {
    hide Consumes, ReplayWindow.Advance, StoredNonce;
    var tx, coordinator := TxOf(events[j]), events[j].action.request.coordinator;
    var seen := SeenSeqs(dbs, events, j, tx.operator, coordinator);
    WindowTracksConsumed(dbs, events, j, tx.operator, coordinator);
    AdvanceRefinesSet(Window(dbs[j], tx.operator, coordinator), seen, tx.s);
    forall i: nat | i < j ensures StoredNonce(dbs, events, i) <==> Consumes(dbs[i], events[i]) {
      StoresExactlyWhenConsumed(dbs, events, i);
    }
    forall i: nat | i < j && StoredNonce(dbs, events, i) && For(events[i], tx.operator, coordinator) ensures TxOf(events[i]).s in seen {
    }
  }

  /**
   The answer to every request of every run: 401 unless it is well signed, a replay answer
   unless it is unused, and otherwise it is served, or refused for the fault that struck.
   */
  lemma AnsweredExactlyWhen(dbs: seq<Db>, events: seq<Event>, j: nat)
    requires IsRun(dbs, events) && j < |events| && events[j].action.Handle?
    ensures var r := events[j].action.request;
            var outcome := Authenticate(dbs[j], r).outcome;
            var good := !r.lookupFails && WellSigned(dbs[j], r);
            && (outcome.Served? <==> good && Unused(dbs, events, j) && r.replayFault.NoFault? && r.usageFault.NoFault?)
            && (outcome.Replayed? <==> good && !Unused(dbs, events, j))
            && (outcome.ServerError? <==> good && Unused(dbs, events, j) && r.replayFault.NoFault? && !r.usageFault.NoFault?)
  {
    hide TxVerified, FreshTimestamp, CheckAndAdvance, Unused, WellSigned;
    AdmitsExactlyWhen(dbs, events, j);
    if Admits(dbs[j], events[j].action.request) {
      DecodedIfGood(dbs[j], events[j].action.request);
      UnusedExactlyWhen(dbs, events, j);
    }
  }

  lemma DecodedIfGood(db: Db, r: Request)
    requires WellSigned(db, r)
    ensures r.header.Decoded?
  {
  }

  /** A served request counts one use of each signer's key and of no other, and asks for a swap exactly when one reached its threshold. */
  lemma ServedCountsItsSigners(dbs: seq<Db>, events: seq<Event>, j: nat)
    requires IsRun(dbs, events) && j < |events| && ServedBy(dbs[j], events[j])
    ensures var tx := TxOf(events[j]);
            && tx.operator in dbs[j].operators && tx.operator in dbs[j + 1].operators
            && var rows, rows' := dbs[j].operators[tx.operator].op.rows, dbs[j + 1].operators[tx.operator].op.rows;
            && Counted(rows, rows', {tx.idx0, tx.idx1})
            && (Authenticate(dbs[j], events[j].action.request).outcome.swapRequired <==> SomeCrossed(rows, rows', {tx.idx0, tx.idx1}))
            && KeptOnlyAtFloor(rows, rows', {tx.idx0, tx.idx1}, 3)
  {
    hide ReplayWindow.Advance, FreshTimestamp, RecordUsage, Counted, SomeCrossed, KeptOnlyAtFloor;
    var tx := TxOf(events[j]);
    StepOf(dbs, events, j);
    UsageInvariant(dbs, events, j, tx.operator);
    RecordUsageEffect(dbs[j].operators[tx.operator].op.rows, tx.idx0, tx.idx1, MIN_ACTIVE_KEYS);
  }

  /** A used nonce is kept for ten minutes after the request ended, and until the first sweep after that. */
  lemma NonceKeptTenMinutes(dbs: seq<Db>, events: seq<Event>, i: nat, n: nat)
    requires IsRun(dbs, events) && i < n <= |events| && StoredNonce(dbs, events, i)
    requires forall k | i < k < n && events[k].action.SweepNonces? :: events[k].start <= events[i].finish + 600_000_000_000
    ensures TxOf(events[i]).nonce in dbs[n].nonces && dbs[n].nonces[TxOf(events[i]).nonce] == events[i].finish + 600_000_000_000
  {
    StoresExactlyWhenConsumed(dbs, events, i);
    NonceKeptUntilSwept(dbs, events, i, n);
  }

  // ---------------------------------------------------------------------------
  // The stored tables: windows as bytes and a signed high-water mark
  // ---------------------------------------------------------------------------

  datatype StoredRow = StoredRow(seqHigh: bigint, seqWindow: Bytes)

  function Unpack(row: StoredRow): Row {
    Row(FromBigint(row.seqHigh), Bits(row.seqWindow))
  }

  function DefaultRow(): (row: StoredRow)
    ensures Unpack(row) == ZeroRow()
  {
    StoredRow(0, seq(WINDOW_BYTES, _ => 0))
  }

  function UnpackAll(windows: map<(string, string), StoredRow>): map<(string, string), Row> {
    map k | k in windows :: Unpack(windows[k])
  }

  class AuthStore {
    var operators: map<string, On.System>
    var windows: map<(string, string), StoredRow>
    var nonces: map<Nonce, int>

    ghost function View(): Db
      reads this
    {
      Db(operators, UnpackAll(windows), nonces)
    }

    constructor ()
      ensures View() == Db(map[], map[], map[])
    {
      operators, windows, nonces := map[], map[], map[];
    }

    method CheckAndAdvanceRows(operator: string, coordinator: string, s: uint64, nonce: Nonce, expiry: int) returns (ok: bool)
      modifies this
      ensures ok <==> CheckAndAdvance(old(View()), operator, coordinator, s, nonce, expiry).Some?
      ensures View() == if ok then CheckAndAdvance(old(View()), operator, coordinator, s, nonce, expiry).value else old(View())
    {
      if nonce in nonces {
        return false;
      }
      var key := (operator, coordinator);
      var row := if key in windows then windows[key] else DefaultRow();
      var newHigh, newWindow;
      newHigh, newWindow, ok := AdvanceWindow(FromBigint(row.seqHigh), row.seqWindow, s);
      if !ok {
        return;
      }
      var stored := StoredRow(ToBigint(newHigh), newWindow);
      assert Unpack(stored) == Row(newHigh, Bits(newWindow));
      assert UnpackAll(windows[key := stored]) == UnpackAll(windows)[key := Unpack(stored)];
      windows := windows[key := stored];
      nonces := nonces[nonce := expiry];
    }

    method HandleRequest(r: Request) returns (outcome: Outcome)
      modifies this
      ensures Reply(View(), outcome) == Authenticate(old(View()), r)
    {
      if !r.header.Decoded? {
        return Unauthorized;
      }
      var tx := r.header.tx;
      if !FreshTimestamp(r.now, tx.ts) || r.lookupFails {
        return Unauthorized;
      }
      var km := if tx.operator in operators then On.GatedKeyMap(operators[tx.operator].op) else None;
      if !TxVerified(tx, km) {
        return Unauthorized;
      }
      hide ReplayWindow.Advance, ReplayWindow.Bits;
      var windows', nonces' := windows, nonces;
      var ok := CheckAndAdvanceRows(tx.operator, r.coordinator, tx.s, tx.nonce, r.later + NONCE_RETENTION);
      if !ok {
        return Replayed;
      }
      if !r.replayFault.NoFault? {
        if r.replayFault.RolledBack? {
          windows, nonces := windows', nonces';
        }
        return Unauthorized;
      }
      var sys := operators[tx.operator];
      var used := RecordUsage(sys.op.rows, tx.idx0, tx.idx1, MIN_ACTIVE_KEYS);
      if !r.usageFault.RolledBack? {
        operators := operators[tx.operator := sys.(op := sys.op.(rows := used.rows), counted := sys.counted + 1)];
      }
      if !r.usageFault.NoFault? {
        return ServerError;
      }
      outcome := Served(used.swap);
    }
  }
}
