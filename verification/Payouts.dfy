/**
 The payout releaser: it lists the eligible jobs, asks the payment service to pay each, and
 marks the paid rows.  The service may fail before or after it creates the payout, the mark
 may fail, and rows change between the listing and the payment.
 */
module Payouts {
  import opened Wrappers
  import opened Sequences
  import opened Metering

  const DAY: int := 24 * 3600

  type JobId = string

  /** A metered job joined with its provider.  `sample` and `prices` are what it was metered from. */
  datatype Row = Row(
    completed: bool, completedAt: int, amountCents: int, account: Option<string>, disputed: bool,
    sample: Sample, prices: seq<RateRow>, money: Money, released: Option<int>)

  datatype Candidate = Candidate(id: JobId, account: string, earned: int)

  datatype Payout = Payout(key: string, account: string, amount: int, at: int)

  /** How a call to the payment service ends; a lost reply is an error after the payout was created. */
  datatype Reply = Answered | Unreached | LostReply

  // ---------------------------------------------------------------------------
  // Eligibility and one payment
  // ---------------------------------------------------------------------------

  predicate Eligible(row: Row, now: int) {
    && row.completed && row.completedAt < now - DAY && row.amountCents > 0 && row.account.Some? && !row.disputed
    && row.money.earned > 0 && row.released.None?
  }

  function CandidateOf(id: JobId, row: Row): Candidate
    requires row.account.Some?
  {
    Candidate(id, row.account.value, row.money.earned)
  }

  function Key(id: JobId): string { "payout:" + id }

  lemma KeysAreInjective(a: JobId, b: JobId)
    ensures Key(a) == Key(b) <==> a == b
  {
    assert Key(a)[7..] == a && Key(b)[7..] == b;
  }

  predicate HasKey(ledger: seq<Payout>, key: string) {
    exists k | 0 <= k < |ledger| :: ledger[k].key == key
  }

  predicate PaidOn(ledger: seq<Payout>, account: string, key: string) {
    exists k | 0 <= k < |ledger| :: ledger[k].account == account && ledger[k].key == key
  }

  /** The service answers a key repeated on the same account with the payout it already made. */
  function Create(ledger: seq<Payout>, p: Payout): seq<Payout> {
    if PaidOn(ledger, p.account, p.key) then ledger else ledger + [p]
  }

  predicate Accepts(c: Candidate) {
    c.earned > 0 && c.id != ""
  }

  function Trigger(ledger: seq<Payout>, c: Candidate, reply: Reply, now: int): seq<Payout> {
    if Accepts(c) && !reply.Unreached? then Create(ledger, Payout(Key(c.id), c.account, c.earned, now)) else ledger
  }

  function Mark(rows: map<JobId, Row>, id: JobId, now: int): map<JobId, Row> {
    if id in rows then rows[id := rows[id].(released := Some(now))] else rows
  }

  // ---------------------------------------------------------------------------
  // Runs
  // ---------------------------------------------------------------------------

  /** `ids` lists the metered jobs in the order they were metered. */
  datatype Sys = Sys(rows: map<JobId, Row>, ids: seq<JobId>, pending: seq<Candidate>, ledger: seq<Payout>, clock: int)

  datatype Step =
    | Meter(id: JobId, completed: bool, completedAt: int, sample: Sample, prices: seq<RateRow>)
    | Amend(id: JobId, amountCents: int, account: Option<string>, disputed: bool)
    | Select(listed: seq<Candidate>)
    | Pay(reply: Reply, marked: bool)

  datatype Event = Event(now: int, step: Step)

  /** What one listing may return: eligible rows, each of them once, in any order. */
  ghost predicate Lists(rows: map<JobId, Row>, listed: seq<Candidate>, now: int) {
    && (forall c | c in listed :: c.id in rows && Eligible(rows[c.id], now) && c == CandidateOf(c.id, rows[c.id]))
    && (forall id | id in rows && Eligible(rows[id], now) :: CandidateOf(id, rows[id]) in listed)
    && (forall i, j | 0 <= i < j < |listed| :: listed[i] != listed[j])
  }

  ghost function Next(s: Sys, e: Event): Sys {
    match e.step
    case Meter(id, completed, completedAt, sample, prices) =>
      if id in s.rows || !ValidSample(sample) || !ValidRates(prices) then s.(clock := e.now)
      else s.(clock := e.now, ids := s.ids + [id],
              rows := s.rows[id := Row(completed, completedAt, 0, None, false, sample, prices, Metered(sample, prices), None)])
    case Amend(id, amountCents, account, disputed) =>
      if id !in s.rows then s.(clock := e.now)
      else s.(clock := e.now, rows := s.rows[id := s.rows[id].(amountCents := amountCents, account := account, disputed := disputed)])
    case Select(listed) =>
      if s.pending == [] && Lists(s.rows, listed, e.now) then s.(clock := e.now, pending := listed) else s.(clock := e.now)
    case Pay(reply, marked) =>
      if s.pending == [] then s.(clock := e.now)
      else
        var c := s.pending[0];
        s.(clock := e.now, pending := s.pending[1..], ledger := Trigger(s.ledger, c, reply, e.now),
           rows := if Accepts(c) && reply.Answered? && marked then Mark(s.rows, c.id, e.now) else s.rows)
  }

  ghost predicate IsRun(states: seq<Sys>, events: seq<Event>) {
    && |states| == |events| + 1
    && states[0].rows == map[] && states[0].ids == [] && states[0].pending == [] && states[0].ledger == []
    && (forall i {:trigger Marked(i)} | 0 <= i < |events| ::
          events[i].now >= states[i].clock && states[i + 1] == Next(states[i], events[i]))
  }

  lemma StepOf(states: seq<Sys>, events: seq<Event>, i: nat)
    requires IsRun(states, events) && i < |events|
    ensures events[i].now >= states[i].clock && states[i + 1] == Next(states[i], events[i])
  {
    assert Marked(i);
  }

  // ---------------------------------------------------------------------------
  // What every step keeps
  // ---------------------------------------------------------------------------

  ghost predicate Listed(rows: map<JobId, Row>, ids: seq<JobId>) {
    && (forall id :: id in rows <==> id in ids)
    && (forall i, j | 0 <= i < j < |ids| :: ids[i] != ids[j])
  }

  predicate WellMetered(row: Row) {
    ValidSample(row.sample) && ValidRates(row.prices) && row.money == Metered(row.sample, row.prices)
  }

  /** The amount and the age of a payment for this job, due or made at `at`. */
  predicate Due(rows: map<JobId, Row>, id: JobId, amount: int, at: int) {
    id in rows && rows[id].completed && amount == rows[id].money.earned && amount > 0 && rows[id].completedAt < at - DAY
  }

  /** A payout is for some metered job that was due it. */
  ghost predicate Explained(rows: map<JobId, Row>, p: Payout) {
    exists id :: p.key == Key(id) && Due(rows, id, p.amount, p.at)
  }

  /** One payout per account and key, each of exactly what one metered job earned and more than a day after it completed. */
  ghost predicate LedgerInv(rows: map<JobId, Row>, ledger: seq<Payout>) {
    && (forall p | p in ledger :: Explained(rows, p))
    && (forall i, j | 0 <= i < j < |ledger| :: ledger[i].account != ledger[j].account || ledger[i].key != ledger[j].key)
  }

  ghost predicate Inv(s: Sys) {
    && Listed(s.rows, s.ids)
    && (forall id | id in s.rows :: WellMetered(s.rows[id]))
    && (forall c | c in s.pending :: Due(s.rows, c.id, c.earned, s.clock))
    && (forall i, j | 0 <= i < j < |s.pending| :: s.pending[i].id != s.pending[j].id)
    && LedgerInv(s.rows, s.ledger)
    && (forall id | id in s.rows && s.rows[id].released.Some? :: HasKey(s.ledger, Key(id)))
  }

  /** Rows are only added, and the metered and completed facts of a row never change. */
  predicate Keeps(rows: map<JobId, Row>, rows': map<JobId, Row>) {
    forall id | id in rows :: id in rows' && rows'[id].completed == rows[id].completed && rows'[id].completedAt == rows[id].completedAt
                              && rows'[id].sample == rows[id].sample && rows'[id].prices == rows[id].prices && rows'[id].money == rows[id].money
  }

  lemma LedgerInvKept(rows: map<JobId, Row>, rows': map<JobId, Row>, ledger: seq<Payout>)
    requires LedgerInv(rows, ledger) && Keeps(rows, rows')
    ensures LedgerInv(rows', ledger)
  {
    forall p | p in ledger ensures Explained(rows', p) {
      var id :| p.key == Key(id) && Due(rows, id, p.amount, p.at);
      assert Due(rows', id, p.amount, p.at);
    }
  }

  lemma TriggerKeepsLedgerInv(rows: map<JobId, Row>, ledger: seq<Payout>, c: Candidate, reply: Reply, now: int)
    requires LedgerInv(rows, ledger) && Due(rows, c.id, c.earned, now)
    ensures LedgerInv(rows, Trigger(ledger, c, reply, now))
    ensures Accepts(c) && !reply.Unreached? ==> PaidOn(Trigger(ledger, c, reply, now), c.account, Key(c.id))
    ensures Accepts(c) && !reply.Unreached? ==> HasKey(Trigger(ledger, c, reply, now), Key(c.id))
    ensures forall key | HasKey(ledger, key) :: HasKey(Trigger(ledger, c, reply, now), key)
  {
    var ledger' := Trigger(ledger, c, reply, now);
    assert ledger <= ledger';
    forall key | HasKey(ledger, key) ensures HasKey(ledger', key) {
      var k :| 0 <= k < |ledger| && ledger[k].key == key;
      assert ledger'[k].key == key;
    }
    if ledger' != ledger {
      var p := ledger'[|ledger|];
      assert p.account == c.account && p.key == Key(c.id) && Due(rows, c.id, p.amount, p.at);
      assert Explained(rows, p);
    } else if PaidOn(ledger, c.account, Key(c.id)) {
      var k :| 0 <= k < |ledger| && ledger[k].account == c.account && ledger[k].key == Key(c.id);
      assert HasKey(ledger, Key(c.id));
    }
  }

  lemma InvOfSteps(s: Sys, s': Sys)
    requires Inv(s) && s'.clock >= s.clock && Keeps(s.rows, s'.rows) && Listed(s'.rows, s'.ids)
    requires forall id | id in s'.rows :: WellMetered(s'.rows[id])
    requires forall c | c in s'.pending :: c in s.pending || Due(s'.rows, c.id, c.earned, s'.clock)
    requires forall i, j | 0 <= i < j < |s'.pending| :: s'.pending[i].id != s'.pending[j].id
    requires LedgerInv(s'.rows, s'.ledger)
    requires forall id | id in s'.rows && s'.rows[id].released.Some? :: HasKey(s'.ledger, Key(id))
    ensures Inv(s')
  {
    hide LedgerInv, Listed, WellMetered, HasKey;
    forall c | c in s'.pending ensures Due(s'.rows, c.id, c.earned, s'.clock) {
      if c in s.pending {
        assert Due(s.rows, c.id, c.earned, s.clock);
      }
    }
  }

  lemma InvMeter(s: Sys, e: Event)
    requires Inv(s) && e.now >= s.clock && e.step.Meter?
    ensures Inv(Next(s, e)) && Keeps(s.rows, Next(s, e).rows)
  {
    hide LedgerInv, Metered, ValidSample, ValidRates, HasKey;
    var s' := Next(s, e);
    LedgerInvKept(s.rows, s'.rows, s.ledger);
    InvOfSteps(s, s');
  }

  lemma InvAmend(s: Sys, e: Event)
    requires Inv(s) && e.now >= s.clock && e.step.Amend?
    ensures Inv(Next(s, e)) && Keeps(s.rows, Next(s, e).rows)
  {
    hide LedgerInv, Metered, ValidSample, ValidRates, HasKey;
    var s' := Next(s, e);
    LedgerInvKept(s.rows, s'.rows, s.ledger);
    InvOfSteps(s, s');
  }

  lemma ListedIdsDiffer(rows: map<JobId, Row>, listed: seq<Candidate>, now: int)
    requires Lists(rows, listed, now)
    ensures forall i, j | 0 <= i < j < |listed| :: listed[i].id != listed[j].id
  {
    forall i, j | 0 <= i < j < |listed| ensures listed[i].id != listed[j].id {
      assert listed[i] in listed && listed[j] in listed;
    }
  }

  lemma InvSelect(s: Sys, e: Event)
    requires Inv(s) && e.now >= s.clock && e.step.Select?
    ensures Inv(Next(s, e)) && Keeps(s.rows, Next(s, e).rows)
  {
    hide LedgerInv, WellMetered, HasKey, Listed;
    if s.pending == [] && Lists(s.rows, e.step.listed, e.now) {
      ListedIdsDiffer(s.rows, e.step.listed, e.now);
    }
    InvOfSteps(s, Next(s, e));
  }

  lemma InvPay(s: Sys, e: Event)
    requires Inv(s) && e.now >= s.clock && e.step.Pay?
    ensures Inv(Next(s, e)) && Keeps(s.rows, Next(s, e).rows)
  {
    hide LedgerInv, Metered, ValidSample, ValidRates, HasKey, Trigger, Key;
    if s.pending != [] {
      var s' := Next(s, e);
      assert Due(s.rows, s.pending[0].id, s.pending[0].earned, s.clock);
      LedgerInvKept(s.rows, s'.rows, s.ledger);
      TriggerKeepsLedgerInv(s'.rows, s.ledger, s.pending[0], e.step.reply, e.now);
      InvOfSteps(s, s');
    } else {
      InvOfSteps(s, Next(s, e));
    }
  }

  lemma InvStep(s: Sys, e: Event)
    requires Inv(s) && e.now >= s.clock
    ensures Inv(Next(s, e)) && Keeps(s.rows, Next(s, e).rows)
  {
    hide *;
    match e.step
    case Meter(_, _, _, _, _) => InvMeter(s, e);
    case Amend(_, _, _, _) => InvAmend(s, e);
    case Select(_) => InvSelect(s, e);
    case Pay(_, _) => InvPay(s, e);
  }

  lemma {:induction false} RunKeepsInv(states: seq<Sys>, events: seq<Event>, n: nat)
    requires IsRun(states, events) && n < |states|
    ensures Inv(states[n])
  {
    hide Next;
    if n > 0 {
      RunKeepsInv(states, events, n - 1);
      StepOf(states, events, n - 1);
      InvStep(states[n - 1], events[n - 1]);
    }
  }

  /** Whatever calls and marks fail, a job is paid at most once on an account, exactly what it earned, more than a day after it completed. */
  lemma PaidOncePerAccount(states: seq<Sys>, events: seq<Event>, n: nat, id: JobId, i: nat, j: nat)
    requires IsRun(states, events) && n < |states| && i < |states[n].ledger| && j < |states[n].ledger|
    requires states[n].ledger[i].key == Key(id) && states[n].ledger[j].key == Key(id)
    requires states[n].ledger[i].account == states[n].ledger[j].account
    ensures i == j
    ensures Due(states[n].rows, id, states[n].ledger[i].amount, states[n].ledger[i].at)
    ensures var p, row := states[n].ledger[i], states[n].rows[id];
            row.completed && p.amount == row.money.earned > 0 && p.at - row.completedAt > 86400
  {
    hide Next;
    RunKeepsInv(states, events, n);
    assert states[n].ledger[i] in states[n].ledger;
    var paid :| states[n].ledger[i].key == Key(paid) && Due(states[n].rows, paid, states[n].ledger[i].amount, states[n].ledger[i].at);
    KeysAreInjective(paid, id);
  }

  /** The step writes the row's amendable columns. */
  predicate Amends(s: Sys, e: Event, id: JobId) {
    e.step.Amend? && e.step.id == id && id in s.rows
  }

  /** The step replaces an account that was set. */
  predicate ChangesAccount(s: Sys, e: Event, id: JobId) {
    Amends(s, e, id) && s.rows[id].account.Some? && e.step.account != s.rows[id].account
  }

  /** Listings and payouts of the job so far are on the account its row has now. */
  ghost predicate OnItsAccount(s: Sys, id: JobId) {
    && (forall c | c in s.pending && c.id == id :: id in s.rows && s.rows[id].account == Some(c.account))
    && (forall p | p in s.ledger && p.key == Key(id) :: id in s.rows && s.rows[id].account == Some(p.account))
  }

  lemma OnItsAccountStep(s: Sys, e: Event, id: JobId)
    requires Inv(s) && OnItsAccount(s, id) && !ChangesAccount(s, e, id)
    ensures OnItsAccount(Next(s, e), id)
  {
    hide Inv, Metered, ValidSample, ValidRates;
    match e.step
    case Meter(_, _, _, _, _) =>
    case Amend(_, _, _, _) =>
    case Select(_) =>
    case Pay(_, _) =>
      if s.pending != [] {
        KeysAreInjective(s.pending[0].id, id);
      }
  }

  lemma {:induction false} RunKeepsAccount(states: seq<Sys>, events: seq<Event>, n: nat, id: JobId)
    requires IsRun(states, events) && n < |states| && forall k | 0 <= k < n :: !ChangesAccount(states[k], events[k], id)
    ensures OnItsAccount(states[n], id)
  {
    hide Next, Inv, ChangesAccount;
    if n > 0 {
      RunKeepsAccount(states, events, n - 1, id);
      RunKeepsInv(states, events, n - 1);
      StepOf(states, events, n - 1);
      OnItsAccountStep(states[n - 1], events[n - 1], id);
    }
  }

  /** So a job whose account, once set, is never replaced is paid at most once. */
  lemma PaidAtMostOnce(states: seq<Sys>, events: seq<Event>, n: nat, id: JobId, i: nat, j: nat)
    requires IsRun(states, events) && n < |states| && forall k | 0 <= k < n :: !ChangesAccount(states[k], events[k], id)
    requires i < |states[n].ledger| && j < |states[n].ledger|
    requires states[n].ledger[i].key == Key(id) && states[n].ledger[j].key == Key(id)
    ensures i == j
  {
    hide Next, ChangesAccount;
    RunKeepsAccount(states, events, n, id);
    assert states[n].ledger[i] in states[n].ledger && states[n].ledger[j] in states[n].ledger;
    PaidOncePerAccount(states, events, n, id, i, j);
  }

  /** A row says released only if the payout exists. */
  lemma ReleasedOnlyIfPaid(states: seq<Sys>, events: seq<Event>, n: nat, id: JobId)
    requires IsRun(states, events) && n < |states| && id in states[n].rows && states[n].rows[id].released.Some?
    ensures HasKey(states[n].ledger, Key(id))
  {
    hide Next;
    RunKeepsInv(states, events, n);
  }

  // ---------------------------------------------------------------------------
  // Conservation
  // ---------------------------------------------------------------------------

  function Sum(ids: seq<JobId>, f: JobId -> int): int {
    if ids == [] then 0 else Sum(ids[..|ids| - 1], f) + f(ids[|ids| - 1])
  }

  lemma {:induction false} SumAtMost(ids: seq<JobId>, f: JobId -> int, g: JobId -> int)
    requires forall id | id in ids :: f(id) <= g(id)
    ensures Sum(ids, f) <= Sum(ids, g)
  {
    if ids != [] {
      SumAtMost(ids[..|ids| - 1], f, g);
    }
  }

  /** Two summands that differ at one listed job. */
  lemma {:induction false} SumDiffers(ids: seq<JobId>, f: JobId -> int, g: JobId -> int, job: JobId)
    requires forall i, j | 0 <= i < j < |ids| :: ids[i] != ids[j]
    requires forall id | id in ids && id != job :: f(id) == g(id)
    ensures Sum(ids, g) == Sum(ids, f) + if job in ids then g(job) - f(job) else 0
  {
    if ids != [] {
      var n := |ids| - 1;
      SumDiffers(ids[..n], f, g, job);
      assert ids == ids[..n] + [ids[n]];
    }
  }

  /** How often a job was paid. */
  function Times(ledger: seq<Payout>, key: string): nat {
    if ledger == [] then 0
    else Times(ledger[..|ledger| - 1], key) + if ledger[|ledger| - 1].key == key then 1 else 0
  }

  function Repeated(n: nat, amount: int): int { n * amount }

  /** What a job earned, and what its consumer was charged, as often as it was paid. */
  function EarnedAsPaid(rows: map<JobId, Row>, ledger: seq<Payout>): JobId -> int {
    id => if id in rows then Repeated(Times(ledger, Key(id)), rows[id].money.earned) else 0
  }

  function ChargedAsPaid(rows: map<JobId, Row>, ledger: seq<Payout>): JobId -> int {
    id => if id in rows then Repeated(Times(ledger, Key(id)), rows[id].money.paid) else 0
  }

  /** The same once for every job; an amount below zero, which reversed times give, counts as nothing. */
  function Earned(rows: map<JobId, Row>): JobId -> int {
    id => if id in rows && rows[id].money.earned > 0 then rows[id].money.earned else 0
  }

  function Charged(rows: map<JobId, Row>): JobId -> int {
    id => if id in rows && rows[id].money.paid > 0 then rows[id].money.paid else 0
  }

  function LedgerTotal(ledger: seq<Payout>): int {
    if ledger == [] then 0 else LedgerTotal(ledger[..|ledger| - 1]) + ledger[|ledger| - 1].amount
  }

  lemma {:induction false} NothingPaid(rows: map<JobId, Row>, ids: seq<JobId>)
    ensures Sum(ids, EarnedAsPaid(rows, [])) == 0
  {
    if ids != [] {
      NothingPaid(rows, ids[..|ids| - 1]);
    }
  }

  lemma OnceMore(n: nat, x: int)
    ensures Repeated(n + 1, x) == Repeated(n, x) + x
  {
  }

  lemma LastPayoutAdds(rows: map<JobId, Row>, ids: seq<JobId>, ledger: seq<Payout>, job: JobId)
    requires Listed(rows, ids) && ledger != [] && ledger[|ledger| - 1].key == Key(job) && job in rows
    ensures Sum(ids, EarnedAsPaid(rows, ledger)) == Sum(ids, EarnedAsPaid(rows, ledger[..|ledger| - 1])) + rows[job].money.earned
  {
    hide Repeated, Key, Times, Sum;
    var shorter := ledger[..|ledger| - 1];
    forall id ensures Times(ledger, Key(id)) == Times(shorter, Key(id)) + if id == job then 1 else 0 {
      LastTimes(ledger, job, id);
    }
    OnceMore(Times(shorter, Key(job)), rows[job].money.earned);
    var f, g := EarnedAsPaid(rows, shorter), EarnedAsPaid(rows, ledger);
    assert job in ids && g(job) == f(job) + rows[job].money.earned;
    SumDiffers(ids, f, g, job);
  }

  lemma LastTimes(ledger: seq<Payout>, job: JobId, id: JobId)
    requires ledger != [] && ledger[|ledger| - 1].key == Key(job)
    ensures Times(ledger, Key(id)) == Times(ledger[..|ledger| - 1], Key(id)) + if id == job then 1 else 0
  {
    KeysAreInjective(id, job);
  }

  /** The money that left is what the jobs earned, as often as each was paid. */
  lemma {:induction false} LedgerMatchesRows(rows: map<JobId, Row>, ids: seq<JobId>, ledger: seq<Payout>)
    requires Listed(rows, ids) && LedgerInv(rows, ledger)
    ensures LedgerTotal(ledger) == Sum(ids, EarnedAsPaid(rows, ledger))
  {
    hide Key, Sum, EarnedAsPaid;
    if ledger == [] {
      NothingPaid(rows, ids);
    } else {
      var n := |ledger| - 1;
      assert forall p | p in ledger[..n] :: p in ledger;
      LedgerMatchesRows(rows, ids, ledger[..n]);
      assert ledger[n] in ledger;
      var job :| ledger[n].key == Key(job) && Due(rows, job, ledger[n].amount, ledger[n].at);
      LastPayoutAdds(rows, ids, ledger, job);
    }
  }

  lemma RowConserves(row: Row)
    requires WellMetered(row)
    ensures row.money.paid == row.money.earned + row.money.fee
    ensures row.money.earned > 0 ==> row.money.earned <= row.money.paid
  {
    MeteringConserves(row.sample, row.prices);
  }

  lemma {:induction false} PaidMeansListed(ledger: seq<Payout>, key: string) returns (k: nat)
    requires Times(ledger, key) > 0
    ensures k < |ledger| && ledger[k].key == key
  {
    var n := |ledger| - 1;
    if ledger[n].key == key {
      k := n;
    } else {
      k := PaidMeansListed(ledger[..n], key);
    }
  }

  lemma {:induction false} PaidTwiceMeansTwo(ledger: seq<Payout>, key: string) returns (i: nat, j: nat)
    requires Times(ledger, key) > 1
    ensures i < j < |ledger| && ledger[i].key == key && ledger[j].key == key
  {
    var n := |ledger| - 1;
    if ledger[n].key == key {
      i := PaidMeansListed(ledger[..n], key);
      j := n;
    } else {
      i, j := PaidTwiceMeansTwo(ledger[..n], key);
    }
  }

  lemma PaidJobsEarn(states: seq<Sys>, events: seq<Event>, n: nat, id: JobId)
    requires IsRun(states, events) && n < |states| && id in states[n].rows && Times(states[n].ledger, Key(id)) > 0
    ensures states[n].rows[id].money.earned > 0
  {
    hide Next;
    var k := PaidMeansListed(states[n].ledger, Key(id));
    PaidOncePerAccount(states, events, n, id, k, k);
  }

  lemma Scaled(n: nat, x: int, y: int)
    requires n > 0 ==> x <= y
    ensures Repeated(n, x) <= Repeated(n, y)
  {
  }

  /** Never more leaves than the consumers were charged for the paid jobs, counted as often as they were paid. */
  lemma NeverPaysMoreThanCharged(states: seq<Sys>, events: seq<Event>, n: nat)
    requires IsRun(states, events) && n < |states|
    ensures var s := states[n]; LedgerTotal(s.ledger) <= Sum(s.ids, ChargedAsPaid(s.rows, s.ledger))
  {
    hide Next, WellMetered, LedgerInv, Times;
    RunKeepsInv(states, events, n);
    var s := states[n];
    LedgerMatchesRows(s.rows, s.ids, s.ledger);
    forall id | id in s.ids ensures EarnedAsPaid(s.rows, s.ledger)(id) <= ChargedAsPaid(s.rows, s.ledger)(id) {
      RowConserves(s.rows[id]);
      if Times(s.ledger, Key(id)) > 0 {
        PaidJobsEarn(states, events, n, id);
      }
      Scaled(Times(s.ledger, Key(id)), s.rows[id].money.earned, s.rows[id].money.paid);
    }
    SumAtMost(s.ids, EarnedAsPaid(s.rows, s.ledger), ChargedAsPaid(s.rows, s.ledger));
  }

  /** If no account is replaced once set, released, earned and charged totals are in this order, whatever the jobs' times. */
  lemma TotalsInOrder(states: seq<Sys>, events: seq<Event>, n: nat)
    requires IsRun(states, events) && n < |states|
    requires forall id, k | id in states[n].rows && 0 <= k < n :: !ChangesAccount(states[k], events[k], id)
    ensures var s := states[n];
            LedgerTotal(s.ledger) <= Sum(s.ids, Earned(s.rows)) <= Sum(s.ids, Charged(s.rows))
  {
    hide Next, WellMetered, LedgerInv, Times, ChangesAccount;
    RunKeepsInv(states, events, n);
    var s := states[n];
    LedgerMatchesRows(s.rows, s.ids, s.ledger);
    forall id | id in s.ids ensures EarnedAsPaid(s.rows, s.ledger)(id) <= Earned(s.rows)(id) <= Charged(s.rows)(id) {
      RowConserves(s.rows[id]);
      PaidOnceTimes(states, events, n, id);
      if Times(s.ledger, Key(id)) > 0 {
        PaidJobsEarn(states, events, n, id);
      }
    }
    SumAtMost(s.ids, EarnedAsPaid(s.rows, s.ledger), Earned(s.rows));
    SumAtMost(s.ids, Earned(s.rows), Charged(s.rows));
  }

  lemma PaidOnceTimes(states: seq<Sys>, events: seq<Event>, n: nat, id: JobId)
    requires IsRun(states, events) && n < |states| && forall k | 0 <= k < n :: !ChangesAccount(states[k], events[k], id)
    ensures Times(states[n].ledger, Key(id)) <= 1
  {
    hide Next, ChangesAccount;
    if Times(states[n].ledger, Key(id)) > 1 {
      var i, j := PaidTwiceMeansTwo(states[n].ledger, Key(id));
      PaidAtMostOnce(states, events, n, id, i, j);
    }
  }

  // ---------------------------------------------------------------------------
  // From the listing to the payment
  // ---------------------------------------------------------------------------

  /** The step fills the empty list of candidates. */
  ghost predicate Selects(s: Sys, e: Event) {
    e.step.Select? && s.pending == [] && Lists(s.rows, e.step.listed, e.now)
  }

  /** The listing at m put the candidate in the list, where it stays until n. */
  ghost predicate ListedAt(states: seq<Sys>, events: seq<Event>, c: Candidate, m: int, n: int)
    requires |states| == |events| + 1 && n <= |events|
  {
    && 0 <= m < n && Selects(states[m], events[m]) && c in events[m].step.listed
    && c.id in states[m].rows && Eligible(states[m].rows[c.id], events[m].now) && c == CandidateOf(c.id, states[m].rows[c.id])
    && forall i | m < i <= n :: c in states[i].pending
  }

  lemma PendingStep(s: Sys, e: Event, c: Candidate)
    requires c in Next(s, e).pending
    ensures c in s.pending || (Selects(s, e) && c in e.step.listed)
  {
  }

  lemma {:induction false} PendingWasListed(states: seq<Sys>, events: seq<Event>, c: Candidate, n: nat) returns (m: int)
    requires IsRun(states, events) && n <= |events| && c in states[n].pending
    ensures ListedAt(states, events, c, m, n)
  {
    hide Next, Eligible;
    var k := n - 1;
    StepOf(states, events, k);
    PendingStep(states[k], events[k], c);
    if c in states[k].pending {
      m := PendingWasListed(states, events, c, k);
    } else {
      m := k;
    }
  }

  /** The last amendment of the job between m and n opens a dispute. */
  ghost predicate LastAmendDisputes(states: seq<Sys>, events: seq<Event>, id: JobId, a: int, m: int, n: int)
    requires |states| == |events| + 1 && 0 <= m && n <= |events|
  {
    m < a < n && Amends(states[a], events[a], id) && events[a].step.disputed && forall i | a < i < n :: !Amends(states[i], events[i], id)
  }

  ghost predicate DisputedSince(states: seq<Sys>, events: seq<Event>, id: JobId, m: int, n: int)
    requires |states| == |events| + 1 && 0 <= m && n <= |events|
  {
    exists a :: LastAmendDisputes(states, events, id, a, m, n)
  }

  lemma DisputeStep(s: Sys, e: Event, id: JobId)
    requires id in s.rows
    ensures id in Next(s, e).rows && Next(s, e).rows[id].disputed == if Amends(s, e, id) then e.step.disputed else s.rows[id].disputed
  {
  }

  lemma DisputedSinceStep(states: seq<Sys>, events: seq<Event>, id: JobId, m: int, n: int)
    requires |states| == |events| + 1 && 0 <= m < n < |events|
    ensures DisputedSince(states, events, id, m, n + 1) <==>
            if Amends(states[n], events[n], id) then events[n].step.disputed else DisputedSince(states, events, id, m, n)
  {
    hide Amends;
    var next := n + 1;
    if DisputedSince(states, events, id, m, next) {
      var a :| LastAmendDisputes(states, events, id, a, m, next);
      assert a < n ==> LastAmendDisputes(states, events, id, a, m, n);
    }
    if Amends(states[n], events[n], id) {
      AmendShape(states[n], events[n], id);
      if events[n].step.disputed {
        assert LastAmendDisputes(states, events, id, n, m, next);
      }
    } else if DisputedSince(states, events, id, m, n) {
      var a :| LastAmendDisputes(states, events, id, a, m, n);
      assert LastAmendDisputes(states, events, id, a, m, next);
    }
  }

  lemma AmendShape(s: Sys, e: Event, id: JobId)
    requires Amends(s, e, id)
    ensures e.step.Amend?
  {
  }

  lemma {:induction false} DisputedExactlySince(states: seq<Sys>, events: seq<Event>, id: JobId, m: nat, n: nat)
    requires IsRun(states, events) && m < n <= |events| && id in states[m + 1].rows && !states[m + 1].rows[id].disputed
    ensures id in states[n].rows && (states[n].rows[id].disputed <==> DisputedSince(states, events, id, m, n))
  {
    hide Next;
    if n > m + 1 {
      hide DisputedSince, Amends;
      DisputedExactlySince(states, events, id, m, n - 1);
      StepOf(states, events, n - 1);
      DisputeStep(states[n - 1], events[n - 1], id);
      DisputedSinceStep(states, events, id, m, n - 1);
    }
  }

  /** The step calls the service for the first candidate, and the call reaches it. */
  predicate Pays(s: Sys, e: Event) {
    e.step.Pay? && s.pending != [] && Accepts(s.pending[0]) && !e.step.reply.Unreached?
  }

  lemma PayStep(s: Sys, e: Event)
    requires Inv(s) && e.now >= s.clock && Pays(s, e)
    ensures PaidOn(Next(s, e).ledger, s.pending[0].account, Key(s.pending[0].id))
  {
    hide LedgerInv, WellMetered, Listed, HasKey;
    var c := s.pending[0];
    assert Due(s.rows, c.id, c.earned, s.clock);
    TriggerKeepsLedgerInv(s.rows, s.ledger, c, e.step.reply, e.now);
  }

  lemma SelectKeepsRows(s: Sys, e: Event)
    requires Selects(s, e)
    ensures Next(s, e).rows == s.rows
  {
  }

  /**
   A job that is paid was listed while undisputed, and is paid under an open dispute exactly
   when it was amended since that listing and the last amendment opened the dispute.
   */
  lemma PaidUnderDisputeExactlyWhen(states: seq<Sys>, events: seq<Event>, n: nat) returns (m: int)
    requires IsRun(states, events) && n < |events| && Pays(states[n], events[n])
    ensures var c := states[n].pending[0];
            && PaidOn(states[n + 1].ledger, c.account, Key(c.id))
            && ListedAt(states, events, c, m, n) && !states[m].rows[c.id].disputed
            && c.id in states[n].rows
            && (states[n].rows[c.id].disputed <==> DisputedSince(states, events, c.id, m, n))
  {
    hide Next, Inv, DisputedSince;
    RunKeepsInv(states, events, n);
    StepOf(states, events, n);
    PayStep(states[n], events[n]);
    m := PendingWasListed(states, events, states[n].pending[0], n);
    StepOf(states, events, m);
    SelectKeepsRows(states[m], events[m]);
    DisputedExactlySince(states, events, states[n].pending[0].id, m, n);
  }

  /** Such a run: listed, then disputed, then paid. */
  lemma DisputeAfterListingIsTooLate(s: Sys, s1: Sys, s2: Sys, s3: Sys, id: JobId, now: int)
    requires id != "" && id in s.rows && s.rows[id].account.Some? && s.pending == [] && s.ledger == []
    requires Lists(s.rows, [CandidateOf(id, s.rows[id])], now)
    requires s1 == Next(s, Event(now, Select([CandidateOf(id, s.rows[id])])))
    requires s2 == Next(s1, Event(now, Amend(id, s.rows[id].amountCents, s.rows[id].account, true)))
    requires s3 == Next(s2, Event(now, Pay(Answered, true)))
    ensures s3.rows[id].disputed && HasKey(s3.ledger, Key(id))
  {
    var c := CandidateOf(id, s.rows[id]);
    assert c in [c] && Eligible(s.rows[id], now);
    assert !PaidOn([], c.account, Key(id));
    assert s3.ledger[0].key == Key(id);
  }

  // ---------------------------------------------------------------------------
  // Twice
  // ---------------------------------------------------------------------------

  lemma LedgerStep(s: Sys, e: Event)
    ensures Next(s, e).ledger != s.ledger ==>
              && e.step.Pay? && s.pending != []
              && var c := s.pending[0];
                 Next(s, e).ledger == s.ledger + [Payout(Key(c.id), c.account, c.earned, e.now)] && Next(s, e).pending == s.pending[1..]
  {
  }

  /** The step that created a payout. */
  ghost predicate CreatedAt(states: seq<Sys>, events: seq<Event>, p: Payout, k: int)
    requires |states| == |events| + 1
  {
    && 0 <= k < |events| && events[k].step.Pay? && states[k].pending != [] && states[k + 1].pending == states[k].pending[1..]
    && states[k].pending[0].account == p.account && Key(states[k].pending[0].id) == p.key
    && states[k + 1].ledger == states[k].ledger + [p]
  }

  lemma {:induction false} PayoutWasCreated(states: seq<Sys>, events: seq<Event>, n: nat, i: nat) returns (k: int)
    requires IsRun(states, events) && n < |states| && i < |states[n].ledger|
    ensures k < n && CreatedAt(states, events, states[n].ledger[i], k) && |states[k].ledger| == i
  {
    hide Next;
    var m := n - 1;
    StepOf(states, events, m);
    LedgerStep(states[m], events[m]);
    if i < |states[m].ledger| {
      k := PayoutWasCreated(states, events, m, i);
    } else {
      k := m;
    }
  }

  lemma {:induction false} LedgerOnlyGrows(states: seq<Sys>, events: seq<Event>, m: nat, n: nat)
    requires IsRun(states, events) && m <= n < |states|
    ensures states[m].ledger <= states[n].ledger
  {
    hide Next;
    if m < n {
      LedgerOnlyGrows(states, events, m, n - 1);
      StepOf(states, events, n - 1);
      LedgerStep(states[n - 1], events[n - 1]);
    }
  }

  lemma ReleasedStep(s: Sys, e: Event, id: JobId)
    requires id in s.rows && s.rows[id].released.Some?
    ensures id in Next(s, e).rows && Next(s, e).rows[id].released.Some?
  {
  }

  lemma {:induction false} UnreleasedBefore(states: seq<Sys>, events: seq<Event>, id: JobId, m: nat, n: nat)
    requires IsRun(states, events) && m <= n < |states| && id in states[n].rows && states[n].rows[id].released.None?
    ensures id in states[m].rows ==> states[m].rows[id].released.None?
  {
    hide Next;
    if m < n {
      if id in states[n - 1].rows {
        if states[n - 1].rows[id].released.None? {
          UnreleasedBefore(states, events, id, m, n - 1);
        } else {
          StepOf(states, events, n - 1);
          ReleasedStep(states[n - 1], events[n - 1], id);
        }
      } else {
        AbsentBefore(states, events, id, m, n - 1);
      }
    }
  }

  lemma KeepStep(s: Sys, e: Event, id: JobId)
    requires id in s.rows
    ensures id in Next(s, e).rows
    ensures !ChangesAccount(s, e, id) && s.rows[id].account.Some? ==> Next(s, e).rows[id].account == s.rows[id].account
  {
  }

  lemma {:induction false} AbsentBefore(states: seq<Sys>, events: seq<Event>, id: JobId, m: nat, n: nat)
    requires IsRun(states, events) && m <= n < |states| && id !in states[n].rows
    ensures id !in states[m].rows
  {
    hide Next;
    if m < n {
      StepOf(states, events, n - 1);
      if id in states[n - 1].rows {
        KeepStep(states[n - 1], events[n - 1], id);
      }
      AbsentBefore(states, events, id, m, n - 1);
    }
  }

  /** Between two different accounts of a job lies a replacement. */
  lemma {:induction false} AccountWasChanged(states: seq<Sys>, events: seq<Event>, id: JobId, m: nat, n: nat) returns (a: int)
    requires IsRun(states, events) && m <= n < |states| && id in states[m].rows && id in states[n].rows
    requires states[m].rows[id].account.Some? && states[n].rows[id].account != states[m].rows[id].account
    ensures m <= a < n && ChangesAccount(states[a], events[a], id)
    decreases n - m
  {
    hide Next, ChangesAccount;
    StepOf(states, events, m);
    KeepStep(states[m], events[m], id);
    if ChangesAccount(states[m], events[m], id) {
      a := m;
    } else {
      a := AccountWasChanged(states, events, id, m + 1, n);
    }
  }

  lemma TakenIsGone(s: Sys, s': Sys)
    requires Inv(s) && s.pending != [] && s'.pending == s.pending[1..]
    ensures forall c | c in s'.pending :: c.id != s.pending[0].id
  {
    hide LedgerInv, Listed, WellMetered, HasKey, Due;
  }

  /** A job that has been taken off the list is on it again only after another listing. */
  lemma ListedAfterTaken(states: seq<Sys>, events: seq<Event>, c: Candidate, m: int, k: int, n: int)
    requires IsRun(states, events) && 0 <= k < n <= |events| && ListedAt(states, events, c, m, n)
    requires states[k].pending != [] && states[k + 1].pending == states[k].pending[1..] && states[k].pending[0].id == c.id
    ensures k < m
  {
    hide Next, Eligible, Inv, Selects;
    RunKeepsInv(states, events, k);
    TakenIsGone(states[k], states[k + 1]);
  }

  /**
   A job is paid twice only if its account was replaced after it was listed for a payout that
   was then not marked, and it was listed again on the new account.
   */
  lemma PaidTwiceOnlyIf(states: seq<Sys>, events: seq<Event>, n: nat, id: JobId, i: nat, j: nat)
    returns (m: int, k: int, a: int, m': int, k': int)
    requires IsRun(states, events) && n < |states| && i < j < |states[n].ledger|
    requires states[n].ledger[i].key == Key(id) && states[n].ledger[j].key == Key(id)
    ensures m < k < m' < k' < n && m < a < m'
    ensures CreatedAt(states, events, states[n].ledger[i], k) && ListedAt(states, events, states[k].pending[0], m, k)
    ensures CreatedAt(states, events, states[n].ledger[j], k') && ListedAt(states, events, states[k'].pending[0], m', k')
    ensures id in states[k + 1].rows && states[k + 1].rows[id].released.None?
    ensures ChangesAccount(states[a], events[a], id)
  {
    hide Next, ChangesAccount, Inv, Eligible;
    k := PayoutWasCreated(states, events, n, i);
    k' := PayoutWasCreated(states, events, n, j);
    if k' < k {
      LedgerOnlyGrows(states, events, k', k);
    }
    var c, c' := states[k].pending[0], states[k'].pending[0];
    KeysAreInjective(c.id, id);
    KeysAreInjective(c'.id, id);
    m := PendingWasListed(states, events, c, k);
    m' := PendingWasListed(states, events, c', k');
    ListedAfterTaken(states, events, c', m', k, k');
    EligibleFacts(states[m].rows[id], events[m].now);
    EligibleFacts(states[m'].rows[id], events[m'].now);
    UnreleasedBefore(states, events, id, k + 1, m');
    StillThere(states, events, id, m, k + 1);
    if c.account == c'.account {
      PaidOncePerAccount(states, events, n, id, i, j);
    }
    a := AccountWasChanged(states, events, id, m, m');
    SelectChangesNoAccount(states[m], events[m], id);
  }

  lemma EligibleFacts(row: Row, now: int)
    requires Eligible(row, now)
    ensures row.account.Some? && row.released.None?
  {
  }

  lemma SelectChangesNoAccount(s: Sys, e: Event, id: JobId)
    requires Selects(s, e)
    ensures !ChangesAccount(s, e, id)
  {
  }

  lemma {:induction false} StillThere(states: seq<Sys>, events: seq<Event>, id: JobId, m: nat, n: nat)
    requires IsRun(states, events) && m <= n < |states| && id in states[m].rows
    ensures id in states[n].rows
  {
    if id !in states[n].rows {
      AbsentBefore(states, events, id, m, n);
    }
  }

  /** A call for the job reaches the service. */
  predicate CallsFor(s: Sys, e: Event, id: JobId) {
    Pays(s, e) && s.pending[0].id == id
  }

  /** No two payouts of the ledger are for the job. */
  ghost predicate PaidOnce(ledger: seq<Payout>, id: JobId) {
    forall i, j | 0 <= i < |ledger| && 0 <= j < |ledger| && ledger[i].key == Key(id) && ledger[j].key == Key(id) :: i == j
  }

  /** All calls for the job that reach the service before n are on one account. */
  ghost predicate CalledOnOneAccount(states: seq<Sys>, events: seq<Event>, id: JobId, n: nat)
    requires |states| == |events| + 1 && n <= |events|
  {
    forall k, k' | 0 <= k < n && 0 <= k' < n && CallsFor(states[k], events[k], id) && CallsFor(states[k'], events[k'], id) ::
      states[k].pending[0].account == states[k'].pending[0].account
  }

  lemma CallIsInLedger(states: seq<Sys>, events: seq<Event>, n: nat, id: JobId, k: nat) returns (i: nat)
    requires IsRun(states, events) && k < n <= |events| && CallsFor(states[k], events[k], id)
    ensures i < |states[n].ledger| && states[n].ledger[i].key == Key(id) && states[n].ledger[i].account == states[k].pending[0].account
  {
    hide Next, Inv, Key;
    RunKeepsInv(states, events, k);
    StepOf(states, events, k);
    PayStep(states[k], events[k]);
    LedgerOnlyGrows(states, events, k + 1, n);
    var account := states[k].pending[0].account;
    i :| 0 <= i < |states[k + 1].ledger| && states[k + 1].ledger[i].account == account && states[k + 1].ledger[i].key == Key(id);
  }

  lemma CreatedByCall(s: Sys, e: Event, p: Payout)
    requires e.step.Pay? && s.pending != [] && Next(s, e).ledger == s.ledger + [p]
    ensures Pays(s, e)
  {
  }

  /** In every run a job is paid at most once exactly when the calls for it that reach the service are all on one account. */
  lemma PaidOnceExactlyWhen(states: seq<Sys>, events: seq<Event>, n: nat, id: JobId)
    requires IsRun(states, events) && n <= |events|
    ensures PaidOnce(states[n].ledger, id) <==> CalledOnOneAccount(states, events, id, n)
  {
    hide Next, Key, Trigger;
    var ledger := states[n].ledger;
    if PaidOnce(ledger, id) {
      forall k, k' | 0 <= k < n && 0 <= k' < n && CallsFor(states[k], events[k], id) && CallsFor(states[k'], events[k'], id)
        ensures states[k].pending[0].account == states[k'].pending[0].account
      {
        var i := CallIsInLedger(states, events, n, id, k);
        var j := CallIsInLedger(states, events, n, id, k');
      }
    }
    if CalledOnOneAccount(states, events, id, n) {
      forall i, j | 0 <= i < |ledger| && 0 <= j < |ledger| && ledger[i].key == Key(id) && ledger[j].key == Key(id) ensures i == j {
        var k := PayoutIsCalled(states, events, n, id, i);
        var k' := PayoutIsCalled(states, events, n, id, j);
        PaidOncePerAccount(states, events, n, id, i, j);
      }
    }
  }

  lemma PayoutIsCalled(states: seq<Sys>, events: seq<Event>, n: nat, id: JobId, i: nat) returns (k: nat)
    requires IsRun(states, events) && n <= |events| && i < |states[n].ledger| && states[n].ledger[i].key == Key(id)
    ensures k < n && CallsFor(states[k], events[k], id) && states[k].pending[0].account == states[n].ledger[i].account
  {
    hide Next, Pays;
    k := PayoutWasCreated(states, events, n, i);
    StepOf(states, events, k);
    CreatedByCall(states[k], events[k], states[n].ledger[i]);
    KeysAreInjective(states[k].pending[0].id, id);
  }

  /** Such a run: the first payout is not marked, the account is replaced, the job is listed and paid again. */
  lemma ReplacedAccountIsPaidAgain(s: Sys, s1: Sys, s2: Sys, s3: Sys, s4: Sys, s5: Sys, id: JobId, row: Row, now: int)
    requires id != "" && s.rows == map[id := row] && s.pending == [] && s.ledger == [] && Eligible(row, now) && row.account == Some("one")
    requires s1 == Next(s, Event(now, Select([Candidate(id, "one", row.money.earned)]))) && s2 == Next(s1, Event(now, Pay(Answered, false)))
    requires s3 == Next(s2, Event(now, Amend(id, row.amountCents, Some("two"), false)))
    requires s4 == Next(s3, Event(now, Select([Candidate(id, "two", row.money.earned)]))) && s5 == Next(s4, Event(now, Pay(Answered, true)))
    ensures |s5.ledger| == 2 && s5.ledger[0].key == s5.ledger[1].key == Key(id) && s5.ledger[0].account != s5.ledger[1].account
  {
    assert Lists(s.rows, [Candidate(id, "one", row.money.earned)], now);
    assert s2.rows == s.rows && s2.pending == [] && s2.ledger == [Payout(Key(id), "one", row.money.earned, now)];
    assert s3.rows == map[id := row.(account := Some("two"))] && s3.ledger == s2.ledger;
    assert Lists(s3.rows, [Candidate(id, "two", row.money.earned)], now);
    assert !PaidOn(s4.ledger, "two", Key(id));
  }

  // ---------------------------------------------------------------------------
  // One tick, written out
  // ---------------------------------------------------------------------------

  /** A job is listed exactly when it is completed for more than 86400 seconds, paid for, undisputed, earned on, unreleased and has an account. */
  lemma ListedExactlyWhen(rows: map<JobId, Row>, listed: seq<Candidate>, now: int, id: JobId)
    requires Lists(rows, listed, now)
    ensures (exists c :: c in listed && c.id == id) <==>
            && id in rows && rows[id].completed && now - rows[id].completedAt > 86400
            && rows[id].amountCents > 0 && rows[id].account.Some? && !rows[id].disputed
            && rows[id].money.earned > 0 && rows[id].released.None?
    ensures forall c | c in listed && c.id == id ::
              id in rows && rows[id].account == Some(c.account) && c.earned == rows[id].money.earned
  {
    if id in rows && Eligible(rows[id], now) {
      assert CandidateOf(id, rows[id]) in listed;
    }
  }

  /** A call creates a payout of the amount under the job's key exactly when it is sound, reaches the service, and is new on the account. */
  lemma CallCreatesExactlyWhen(ledger: seq<Payout>, c: Candidate, reply: Reply, now: int)
    ensures Trigger(ledger, c, reply, now) ==
            if c.earned > 0 && c.id != "" && reply != Unreached
               && forall k | 0 <= k < |ledger| :: ledger[k].account != c.account || ledger[k].key != "payout:" + c.id
            then ledger + [Payout("payout:" + c.id, c.account, c.earned, now)] else ledger
  {
    if PaidOn(ledger, c.account, Key(c.id)) {
      var k :| 0 <= k < |ledger| && ledger[k].account == c.account && ledger[k].key == Key(c.id);
    }
  }

  /** A payment marks its own row, and only after the service answered and the mark was written. */
  lemma MarksExactlyWhen(s: Sys, e: Event, id: JobId)
    requires e.step.Pay? && s.pending != [] && id in s.rows
    ensures id in Next(s, e).rows
    ensures Next(s, e).rows[id] ==
            if s.pending[0].id == id && s.pending[0].earned > 0 && id != "" && e.step.reply == Answered && e.step.marked
            then s.rows[id].(released := Some(e.now)) else s.rows[id]
    ensures Next(s, e).pending == s.pending[1..]
  {
  }

  // ---------------------------------------------------------------------------
  // The releaser
  // ---------------------------------------------------------------------------

  class Releaser {
    var rows: map<JobId, Row>
    var ids: seq<JobId>
    var ledger: seq<Payout>

    constructor ()
      ensures rows == map[] && ids == [] && ledger == []
    {
      rows, ids, ledger := map[], [], [];
    }

    method EligiblePayouts(now: int) returns (listed: seq<Candidate>)
      requires Listed(rows, ids)
      ensures Lists(rows, listed, now)
      ensures forall id :: (exists c :: c in listed && c.id == id) <==>
                && id in rows && rows[id].completed && rows[id].completedAt < now - 86400 && rows[id].amountCents > 0
                && rows[id].account.Some? && !rows[id].disputed && rows[id].money.earned > 0 && rows[id].released.None?
    {
      listed := [];
      for i := 0 to |ids|
        invariant forall c | c in listed :: c.id in ids[..i] && c.id in rows && Eligible(rows[c.id], now) && c == CandidateOf(c.id, rows[c.id])
        invariant forall k | 0 <= k < i && Eligible(rows[ids[k]], now) :: CandidateOf(ids[k], rows[ids[k]]) in listed
        invariant forall k, l | 0 <= k < l < |listed| :: listed[k] != listed[l]
      {
        var row := rows[ids[i]];
        if row.completed && row.completedAt < now - DAY && row.amountCents > 0 && row.account.Some? && !row.disputed
           && row.money.earned > 0 && row.released.None? {
          listed := listed + [Candidate(ids[i], row.account.value, row.money.earned)];
        }
      }
      forall id ensures (exists c :: c in listed && c.id == id) <==> id in rows && Eligible(rows[id], now) {
        ListedExactlyWhen(rows, listed, now, id);
      }
    }

    method TriggerPayout(c: Candidate, reply: Reply, now: int) returns (ok: bool)
      modifies `ledger
      ensures ledger == Trigger(old(ledger), c, reply, now)
      ensures ok <==> Accepts(c) && reply.Answered?
    {
      if c.earned <= 0 || c.id == "" || reply == Unreached {
        return false;
      }
      if !PaidOn(ledger, c.account, "payout:" + c.id) {
        ledger := ledger + [Payout("payout:" + c.id, c.account, c.earned, now)];
      }
      return reply == Answered;
    }

    /** The candidate's call answered and its mark was written. */
    ghost predicate Settled(c: Candidate, reply: Reply, mark: bool, now: int)
      reads this
    {
      c.earned > 0 && c.id != "" && reply == Answered ==>
        HasKey(ledger, "payout:" + c.id) && (mark ==> c.id in rows && rows[c.id].released == Some(now))
    }

    /** Pays one candidate; a failed call leaves the rows alone. */
    method PayOne(c: Candidate, reply: Reply, mark: bool, now: int)
      requires Listed(rows, ids) && LedgerInv(rows, ledger) && Due(rows, c.id, c.earned, now)
      modifies `rows, `ledger
      ensures rows == if Accepts(c) && reply.Answered? && mark then Mark(old(rows), c.id, now) else old(rows)
      ensures ledger == Trigger(old(ledger), c, reply, now)
      ensures Listed(rows, ids) && LedgerInv(rows, ledger) && Keeps(old(rows), rows)
      ensures Settled(c, reply, mark, now)
      ensures forall o, r, m | old(Settled(o, r, m, now)) :: Settled(o, r, m, now)
    {
      TriggerKeepsLedgerInv(rows, ledger, c, reply, now);
      var ok := TriggerPayout(c, reply, now);
      if ok && mark {
        ghost var before := rows;
        rows := rows[c.id := rows[c.id].(released := Some(now))];
        LedgerInvKept(before, rows, ledger);
      }
    }

    /**
     One tick.  A failed call or mark skips that candidate and no other: every listed job whose
     call answers and whose mark succeeds is paid and released.
     */
    method Tick(replies: seq<Reply>, marks: seq<bool>, now: int) returns (listed: seq<Candidate>)
      requires Listed(rows, ids) && LedgerInv(rows, ledger) && |replies| == |marks| == |ids|
      modifies `rows, `ledger
      ensures Keeps(old(rows), rows) && Listed(rows, ids) && LedgerInv(rows, ledger)
      ensures Lists(old(rows), listed, now) && |listed| <= |ids|
      ensures forall k | 0 <= k < |listed| :: Settled(listed[k], replies[k], marks[k], now)
    {
      hide LedgerInv, Listed, Trigger, Lists, Mark, Settled;
      listed := EligiblePayouts(now);
      NoMoreThanListed(rows, ids, listed, now);
      ListedAreDue(rows, listed, now);
      for i := 0 to |listed|
        invariant Keeps(old(rows), rows) && Listed(rows, ids) && LedgerInv(rows, ledger)
        invariant forall k | 0 <= k < i :: Settled(listed[k], replies[k], marks[k], now)
      {
        var c := listed[i];
        assert Due(old(rows), c.id, c.earned, now);
        PayOne(c, replies[i], marks[i], now);
      }
    }
  }

  lemma ListedAreDue(rows: map<JobId, Row>, listed: seq<Candidate>, now: int)
    requires Lists(rows, listed, now)
    ensures forall k | 0 <= k < |listed| :: Due(rows, listed[k].id, listed[k].earned, now)
  {
    forall k | 0 <= k < |listed| ensures Due(rows, listed[k].id, listed[k].earned, now) {
      assert listed[k] in listed;
    }
  }

  lemma NoMoreThanListed(rows: map<JobId, Row>, ids: seq<JobId>, listed: seq<Candidate>, now: int)
    requires Listed(rows, ids) && Lists(rows, listed, now)
    ensures |listed| <= |ids|
  {
    var jobs := set id | id in ids;
    DistinctCount(ids, jobs);
    var found := seq(|listed|, k requires 0 <= k < |listed| => listed[k].id);
    forall i, j | 0 <= i < j < |found| ensures found[i] != found[j] {
      assert listed[i] in listed && listed[j] in listed;
    }
    forall id | id in found ensures id in jobs {
      var k :| 0 <= k < |found| && found[k] == id;
      assert listed[k] in listed;
    }
    DistinctCount(found, jobs);
  }

  lemma {:induction false} DistinctCount(ids: seq<JobId>, jobs: set<JobId>)
    requires forall i, j | 0 <= i < j < |ids| :: ids[i] != ids[j]
    requires forall id | id in ids :: id in jobs
    ensures |ids| <= |jobs|
    ensures (forall id | id in jobs :: id in ids) ==> |ids| == |jobs|
  {
    if ids != [] {
      var n := |ids| - 1;
      assert forall id | id in jobs - {ids[n]} && id in ids :: id in ids[..n];
      DistinctCount(ids[..n], jobs - {ids[n]});
    } else if jobs != {} {
      var id :| id in jobs;
    }
  }
}
