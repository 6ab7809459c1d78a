/**
 What a finished job costs and how the money is split.  Amounts of resources and rates are
 reals; cents are integers, rounded half away from zero.
 */
module Metering {
  import opened Wrappers

  const DEFAULT_SHARE: real := 0.65

  /** A row of the price list; the query lists the newest row of a resource first. */
  datatype RateRow = RateRow(resource: string, rate: real, share: real)

  datatype Profile = Profile(cpuEnabled: bool, ramPct: int, storageGB: int, priceMultiplier: real)

  /** The finished job joined with its node; the node may have no default profile. */
  datatype Sample = Sample(started: int, completed: int, profile: Option<Profile>, cpuCores: int, ramMB: int)

  datatype Money = Money(paid: int, earned: int, fee: int)

  // ---------------------------------------------------------------------------
  // Rounding
  // ---------------------------------------------------------------------------

  function Round(x: real): int {
    if x >= 0.0 then (x + 0.5).Floor else -((0.5 - x).Floor)
  }

  /** The nearest integer; a tie goes away from zero. */
  lemma RoundIsNearest(x: real)
    ensures -0.5 <= Round(x) as real - x <= 0.5
    ensures x - x.Floor as real == 0.5 ==> Round(x) == if x >= 0.0 then x.Floor + 1 else x.Floor
  {
  }

  lemma RoundIsMonotone(x: real, y: real)
    requires x <= y
    ensures Round(x) <= Round(y)
  {
  }

  // ---------------------------------------------------------------------------
  // Rates
  // ---------------------------------------------------------------------------

  /** The first, that is newest, row of a resource. */
  function Newest(rows: seq<RateRow>, resource: string): Option<RateRow> {
    if rows == [] then None else if rows[0].resource == resource then Some(rows[0]) else Newest(rows[1..], resource)
  }

  lemma {:induction false} NewestOfMore(rows: seq<RateRow>, row: RateRow, resource: string)
    ensures Newest(rows + [row], resource) ==
            if Newest(rows, resource).Some? then Newest(rows, resource) else if row.resource == resource then Some(row) else None
  {
    if rows != [] {
      assert (rows + [row])[1..] == rows[1..] + [row];
      NewestOfMore(rows[1..], row, resource);
    }
  }

  lemma {:induction false} NewestIsARow(rows: seq<RateRow>, resource: string)
    ensures Newest(rows, resource).Some? ==> Newest(rows, resource).value in rows
  {
    if rows != [] {
      NewestIsARow(rows[1..], resource);
    }
  }

  function RateFor(rows: seq<RateRow>, resource: string): real {
    if Newest(rows, resource).Some? then Newest(rows, resource).value.rate else 0.0
  }

  function ShareIn(rows: seq<RateRow>): real {
    if Newest(rows, "cpu_core_hr").Some? then Newest(rows, "cpu_core_hr").value.share else DEFAULT_SHARE
  }

  method FetchRates(rows: seq<RateRow>) returns (rates: map<string, real>, share: real)
    ensures forall r :: r in rates <==> Newest(rows, r).Some?
    ensures forall r | r in rates :: rates[r] == RateFor(rows, r)
    ensures share == ShareIn(rows)
  {
    rates, share := map[], DEFAULT_SHARE;
    for i := 0 to |rows|
      invariant forall r :: r in rates <==> Newest(rows[..i], r).Some?
      invariant forall r | r in rates :: rates[r] == RateFor(rows[..i], r)
      invariant share == ShareIn(rows[..i])
    {
      assert rows[..i + 1] == rows[..i] + [rows[i]];
      forall r {
        NewestOfMore(rows[..i], rows[i], r);
      }
      var row := rows[i];
      if row.resource !in rates {
        rates := rates[row.resource := row.rate];
        if row.resource == "cpu_core_hr" {
          share := row.share;
        }
      }
    }
    assert rows[..|rows|] == rows;
  }

  // ---------------------------------------------------------------------------
  // Cost and split
  // ---------------------------------------------------------------------------

  /** The limits the schema puts on every price row. */
  predicate ValidRates(rows: seq<RateRow>) {
    forall row | row in rows :: row.rate >= 0.0 && 0.0 <= row.share <= 1.0
  }

  predicate ValidSample(s: Sample) {
    && s.cpuCores >= 0 && s.ramMB >= 0
    && (s.profile.Some? ==> s.profile.value.ramPct >= 0 && s.profile.value.storageGB >= 0 && s.profile.value.priceMultiplier >= 0.0)
  }

  function ProfileOf(s: Sample): Profile {
    if s.profile.Some? then s.profile.value else Profile(true, 100, 0, 1.0)
  }

  function Hours(s: Sample): real {
    (s.completed - s.started) as real / 3600.0
  }

  /** What a job used: core hours, gigabyte hours of memory, gigabyte months of storage. */
  datatype Usage = Usage(cpuCoreHours: real, ramGBHours: real, storageGBMonths: real)

  function Used(s: Sample, hours: real): Usage {
    var p := ProfileOf(s);
    Usage(if p.cpuEnabled then s.cpuCores as real * hours else 0.0,
          s.ramMB as real / 1024.0 * p.ramPct as real / 100.0 * hours,
          p.storageGB as real / 730.0 * hours)
  }

  function CostOf(u: Usage, cpu: real, ram: real, storage: real, multiplier: real): real {
    (u.cpuCoreHours * cpu + u.ramGBHours * ram + u.storageGBMonths * storage) * multiplier
  }

  function TotalCost(s: Sample, rows: seq<RateRow>): real {
    CostOf(Used(s, Hours(s)), RateFor(rows, "cpu_core_hr"), RateFor(rows, "ram_gb_hr"), RateFor(rows, "storage_gb_mo"),
           ProfileOf(s).priceMultiplier)
  }

  function Portion(amount: real, share: real): real { amount * share }

  function Settle(cost: real, share: real): Money {
    var paid := Round(cost * 100.0);
    var earned := Round(Portion(paid as real, share));
    Money(paid, earned, paid - earned)
  }

  function Metered(s: Sample, rows: seq<RateRow>): Money {
    Settle(TotalCost(s, rows), ShareIn(rows))
  }

  /** What one hour on this node costs, whatever the job's length. */
  function HourlyCost(s: Sample, rows: seq<RateRow>): real {
    var p := ProfileOf(s);
    ((if p.cpuEnabled then s.cpuCores as real * RateFor(rows, "cpu_core_hr") else 0.0)
     + s.ramMB as real / 1024.0 * p.ramPct as real / 100.0 * RateFor(rows, "ram_gb_hr")
     + p.storageGB as real / 730.0 * RateFor(rows, "storage_gb_mo")) * p.priceMultiplier
  }

  lemma Product(x: real, y: real)
    requires x >= 0.0 && y >= 0.0
    ensures x * y >= 0.0
  {
  }

  lemma Rearranged(a: real, b: real, c: real, h: real, r: real, q: real, t: real, m: real)
    ensures (a * h * r + b * h * q + c * h * t) * m == (a * r + b * q + c * t) * m * h
  {
    assert a * h * r == a * r * h && b * h * q == b * q * h && c * h * t == c * t * h;
  }

  lemma RatesAreValid(rows: seq<RateRow>, resource: string)
    requires ValidRates(rows)
    ensures RateFor(rows, resource) >= 0.0 && 0.0 <= ShareIn(rows) <= 1.0
  {
    NewestIsARow(rows, resource);
    NewestIsARow(rows, "cpu_core_hr");
  }

  /** The cost is proportional to the time the job ran, at an hourly cost that is never negative. */
  lemma CostIsProportional(s: Sample, rows: seq<RateRow>)
    ensures TotalCost(s, rows) == HourlyCost(s, rows) * Hours(s)
    ensures ValidSample(s) && ValidRates(rows) ==> HourlyCost(s, rows) >= 0.0
  {
    var p := ProfileOf(s);
    var a := if p.cpuEnabled then s.cpuCores as real else 0.0;
    var b := s.ramMB as real / 1024.0 * p.ramPct as real / 100.0;
    var c := p.storageGB as real / 730.0;
    Rearranged(a, b, c, Hours(s), RateFor(rows, "cpu_core_hr"), RateFor(rows, "ram_gb_hr"), RateFor(rows, "storage_gb_mo"), p.priceMultiplier);
    if ValidSample(s) && ValidRates(rows) {
      HourlyCostIsValid(s, rows);
    }
  }

  lemma HourlyCostIsValid(s: Sample, rows: seq<RateRow>)
    requires ValidSample(s) && ValidRates(rows)
    ensures HourlyCost(s, rows) >= 0.0
  {
    var p := ProfileOf(s);
    var a := if p.cpuEnabled then s.cpuCores as real else 0.0;
    var b := s.ramMB as real / 1024.0 * p.ramPct as real / 100.0;
    var c := p.storageGB as real / 730.0;
    var r, q, t := RateFor(rows, "cpu_core_hr"), RateFor(rows, "ram_gb_hr"), RateFor(rows, "storage_gb_mo");
    RatesAreValid(rows, "cpu_core_hr");
    RatesAreValid(rows, "ram_gb_hr");
    RatesAreValid(rows, "storage_gb_mo");
    Product(s.ramMB as real / 1024.0, p.ramPct as real);
    Product(a, r);
    Product(b, q);
    Product(c, t);
    Product(a * r + b * q + c * t, p.priceMultiplier);
  }

  lemma PortionBetween(x: real, share: real)
    requires 0.0 <= share <= 1.0
    ensures x >= 0.0 ==> 0.0 <= Portion(x, share) <= x
    ensures x <= 0.0 ==> x <= Portion(x, share) <= 0.0
  {
    var y := if x >= 0.0 then x else -x;
    Product(y, share);
    Product(y, 1.0 - share);
    assert y * (1.0 - share) == y - y * share;
    assert -x * share == -(x * share);
  }

  lemma RoundBetween(n: int, x: real)
    ensures 0.0 <= x <= n as real ==> 0 <= Round(x) <= n
    ensures n as real <= x <= 0.0 ==> n <= Round(x) <= 0
  {
  }

  lemma RoundKeepsSign(x: real)
    ensures (x >= 0.0 ==> Round(x) >= 0) && (x <= 0.0 ==> Round(x) <= 0)
  {
  }

  /** The contributor's part lies between nothing and everything, on the side the amount is on, and is the share to half a cent. */
  lemma SettleSplits(cost: real, share: real)
    requires 0.0 <= share <= 1.0
    ensures var m := Settle(cost, share);
            && m.paid == m.earned + m.fee
            && (cost >= 0.0 ==> 0 <= m.earned <= m.paid && 0 <= m.fee)
            && (cost <= 0.0 ==> m.paid <= m.earned <= 0)
            && -0.5 <= m.paid as real - cost * 100.0 <= 0.5
            && -0.5 <= m.earned as real - Portion(m.paid as real, share) <= 0.5
  {
    hide Round, Portion;
    var paid := Round(cost * 100.0);
    RoundIsNearest(cost * 100.0);
    RoundKeepsSign(cost * 100.0);
    RoundIsNearest(Portion(paid as real, share));
    PortionBetween(paid as real, share);
    RoundBetween(paid, Portion(paid as real, share));
  }

  /** Exactly when the contributor earns no more than was paid: unless the rounded cost is negative and the share not within half a cent of all of it. */
  lemma EarnedWithinPaidExactlyWhen(cost: real, share: real)
    requires 0.0 <= share <= 1.0
    ensures var m := Settle(cost, share);
            m.earned <= m.paid <==> cost * 100.0 > -0.5 || Portion(m.paid as real, share) - m.paid as real <= 0.5
  {
    hide Portion;
    var paid := Round(cost * 100.0);
    PortionBetween(paid as real, share);
    RoundBetween(paid, Portion(paid as real, share));
  }

  /**
   Every metered job conserves money.  A job that ended no earlier than it started pays a
   contributor at most what the consumer paid; one whose times are reversed pays nobody.
   */
  lemma MeteringConserves(s: Sample, rows: seq<RateRow>)
    requires ValidSample(s) && ValidRates(rows)
    ensures var m := Metered(s, rows);
            && m.paid == m.earned + m.fee
            && (s.started <= s.completed ==> 0 <= m.earned <= m.paid && 0 <= m.fee)
            && (s.completed <= s.started ==> m.paid <= m.earned <= 0)
  {
    CostIsProportional(s, rows);
    RatesAreValid(rows, "cpu_core_hr");
    if s.started <= s.completed {
      Product(HourlyCost(s, rows), Hours(s));
    }
    if s.completed <= s.started {
      Product(HourlyCost(s, rows), -Hours(s));
      assert HourlyCost(s, rows) * -Hours(s) == -(HourlyCost(s, rows) * Hours(s));
    }
    SettleSplits(TotalCost(s, rows), ShareIn(rows));
  }

  /** A longer run of the same job on the same node never costs or earns less. */
  lemma LongerNeverCheaper(s: Sample, longer: Sample, rows: seq<RateRow>)
    requires ValidSample(s) && ValidRates(rows)
    requires longer == s.(started := longer.started, completed := longer.completed)
    requires s.completed - s.started <= longer.completed - longer.started
    ensures Metered(s, rows).paid <= Metered(longer, rows).paid && Metered(s, rows).earned <= Metered(longer, rows).earned
  {
    hide Round, HourlyCost, TotalCost, ShareIn, Portion;
    CostIsProportional(s, rows);
    CostIsProportional(longer, rows);
    RatesAreValid(rows, "cpu_core_hr");
    assert HourlyCost(s, rows) == HourlyCost(longer, rows) by {
      SameHourlyCost(s, longer, rows);
    }
    Scaled(HourlyCost(s, rows), Hours(s), Hours(longer));
    RoundIsMonotone(TotalCost(s, rows) * 100.0, TotalCost(longer, rows) * 100.0);
    var less, more := Metered(s, rows).paid as real, Metered(longer, rows).paid as real;
    PortionIsMonotone(less, more, ShareIn(rows));
    RoundIsMonotone(Portion(less, ShareIn(rows)), Portion(more, ShareIn(rows)));
  }

  lemma SameHourlyCost(s: Sample, longer: Sample, rows: seq<RateRow>)
    requires longer == s.(started := longer.started, completed := longer.completed)
    ensures HourlyCost(s, rows) == HourlyCost(longer, rows)
  {
  }

  lemma PortionIsMonotone(x: real, y: real, share: real)
    requires share >= 0.0 && x <= y
    ensures Portion(x, share) <= Portion(y, share)
  {
    Scaled(share, x, y);
  }

  lemma Scaled(k: real, x: real, y: real)
    requires k >= 0.0 && x <= y
    ensures k * x <= k * y
  {
    Product(k, y - x);
    assert k * (y - x) == k * y - k * x;
  }

  // ---------------------------------------------------------------------------
  // The charge, written out
  // ---------------------------------------------------------------------------

  /** Row k is the first of its resource in the price list. */
  predicate FirstOf(rows: seq<RateRow>, resource: string, k: int) {
    0 <= k < |rows| && rows[k].resource == resource && forall j | 0 <= j < k :: rows[j].resource != resource
  }

  predicate Unpriced(rows: seq<RateRow>, resource: string) {
    forall j | 0 <= j < |rows| :: rows[j].resource != resource
  }

  /** The rate of the first row of the resource, or nothing. */
  ghost predicate RateIs(rows: seq<RateRow>, resource: string, rate: real) {
    (exists k :: FirstOf(rows, resource, k) && rows[k].rate == rate) || (Unpriced(rows, resource) && rate == 0.0)
  }

  ghost predicate ShareIs(rows: seq<RateRow>, share: real) {
    (exists k :: FirstOf(rows, "cpu_core_hr", k) && rows[k].share == share) || (Unpriced(rows, "cpu_core_hr") && share == 0.65)
  }

  lemma {:induction false} NewestIsFirst(rows: seq<RateRow>, resource: string)
    ensures Newest(rows, resource).Some? ==> exists k :: FirstOf(rows, resource, k) && rows[k] == Newest(rows, resource).value
    ensures Newest(rows, resource).None? ==> Unpriced(rows, resource)
  {
    if rows != [] {
      if rows[0].resource == resource {
        assert FirstOf(rows, resource, 0);
      } else {
        NewestIsFirst(rows[1..], resource);
        if Newest(rows, resource).Some? {
          var k :| FirstOf(rows[1..], resource, k) && rows[1..][k] == Newest(rows, resource).value;
          forall j | 0 <= j < k + 1 ensures rows[j].resource != resource {
            assert j > 0 ==> rows[j] == rows[1..][j - 1];
          }
          assert FirstOf(rows, resource, k + 1);
        } else {
          forall j | 0 <= j < |rows| ensures rows[j].resource != resource {
            assert j > 0 ==> rows[j] == rows[1..][j - 1];
          }
        }
      }
    }
  }

  lemma RateIsRate(rows: seq<RateRow>, resource: string, rate: real)
    ensures RateIs(rows, resource, rate) <==> RateFor(rows, resource) == rate
  {
    NewestIsFirst(rows, resource);
    if k :| FirstOf(rows, resource, k) && rows[k].rate == rate {
      OneFirst(rows, resource, k);
    }
  }

  lemma ShareIsShare(rows: seq<RateRow>, share: real)
    ensures ShareIs(rows, share) <==> ShareIn(rows) == share
  {
    NewestIsFirst(rows, "cpu_core_hr");
    if k :| FirstOf(rows, "cpu_core_hr", k) && rows[k].share == share {
      OneFirst(rows, "cpu_core_hr", k);
    }
  }

  lemma OneFirst(rows: seq<RateRow>, resource: string, k: int)
    requires FirstOf(rows, resource, k)
    ensures Newest(rows, resource) == Some(rows[k])
  {
    NewestIsFirst(rows, resource);
    if Newest(rows, resource).Some? {
      var m :| FirstOf(rows, resource, m) && rows[m] == Newest(rows, resource).value;
      assert m == k;
    }
  }

  /** Cents for so many seconds: cores, memory in gigabytes by its share, and storage by the month of 730 hours. */
  function Cents(seconds: int, cores: int, cpu: real, ramMB: int, ramPct: int, ram: real, storageGB: int, storage: real, multiplier: real): real {
    seconds as real * (cores as real * cpu + ramMB as real * ramPct as real / 102400.0 * ram + storageGB as real / 730.0 * storage)
    * multiplier / 36.0
  }

  predicate WithinHalf(n: int, x: real) { -0.5 <= n as real - x <= 0.5 }

  lemma InCents(hourly: real, seconds: real, unit: real, multiplier: real)
    requires hourly == unit * multiplier
    ensures hourly * (seconds / 3600.0) * 100.0 == seconds * unit * multiplier / 36.0
  {
    assert hourly * (seconds / 3600.0) * 100.0 == hourly * seconds / 36.0;
    assert seconds * unit * multiplier == unit * multiplier * seconds;
  }

  lemma Gigabytes(ramMB: real, ramPct: real)
    ensures ramMB / 1024.0 * ramPct / 100.0 == ramMB * ramPct / 102400.0
  {
  }

  lemma HourlyWrittenOut(s: Sample, rows: seq<RateRow>, cores: int)
    requires cores == if ProfileOf(s).cpuEnabled then s.cpuCores else 0
    ensures TotalCost(s, rows) * 100.0 ==
            Cents(s.completed - s.started, cores, RateFor(rows, "cpu_core_hr"), s.ramMB, ProfileOf(s).ramPct, RateFor(rows, "ram_gb_hr"),
                  ProfileOf(s).storageGB, RateFor(rows, "storage_gb_mo"), ProfileOf(s).priceMultiplier)
  {
    CostIsProportional(s, rows);
    var p := ProfileOf(s);
    Gigabytes(s.ramMB as real, p.ramPct as real);
    var unit := cores as real * RateFor(rows, "cpu_core_hr")
                + s.ramMB as real * p.ramPct as real / 102400.0 * RateFor(rows, "ram_gb_hr")
                + p.storageGB as real / 730.0 * RateFor(rows, "storage_gb_mo");
    InCents(HourlyCost(s, rows), (s.completed - s.started) as real, unit, p.priceMultiplier);
  }

  /**
   The charge of every job, to half a cent, from the first price of each resource: with a
   profile, with a profile that disables the processor, and with none, which counts as all
   memory, no storage and no multiplier.  The contributor earns the first processor row's share.
   */
  lemma ChargedAsWritten(s: Sample, rows: seq<RateRow>, cpu: real, ram: real, storage: real, share: real)
    requires RateIs(rows, "cpu_core_hr", cpu) && RateIs(rows, "ram_gb_hr", ram) && RateIs(rows, "storage_gb_mo", storage)
    requires ShareIs(rows, share)
    ensures var m := Metered(s, rows);
            var seconds := s.completed - s.started;
            && (s.profile.Some? && s.profile.value.cpuEnabled ==>
                  var p := s.profile.value;
                  WithinHalf(m.paid, Cents(seconds, s.cpuCores, cpu, s.ramMB, p.ramPct, ram, p.storageGB, storage, p.priceMultiplier)))
            && (s.profile.Some? && !s.profile.value.cpuEnabled ==>
                  var p := s.profile.value;
                  WithinHalf(m.paid, Cents(seconds, 0, cpu, s.ramMB, p.ramPct, ram, p.storageGB, storage, p.priceMultiplier)))
            && (s.profile.None? ==> WithinHalf(m.paid, Cents(seconds, s.cpuCores, cpu, s.ramMB, 100, ram, 0, storage, 1.0)))
            && WithinHalf(m.earned, m.paid as real * share) && m.fee == m.paid - m.earned
  {
    hide Round, Cents, TotalCost;
    RateIsRate(rows, "cpu_core_hr", cpu);
    RateIsRate(rows, "ram_gb_hr", ram);
    RateIsRate(rows, "storage_gb_mo", storage);
    ShareIsShare(rows, share);
    HourlyWrittenOut(s, rows, if ProfileOf(s).cpuEnabled then s.cpuCores else 0);
    var paid := Round(TotalCost(s, rows) * 100.0);
    RoundIsNearest(TotalCost(s, rows) * 100.0);
    RoundIsNearest(Portion(paid as real, ShareIn(rows)));
  }

  // ---------------------------------------------------------------------------
  // The table
  // ---------------------------------------------------------------------------

  class MeteringTable {
    var rows: map<string, Money>

    constructor ()
      ensures rows == map[]
    {
      rows := map[];
    }

    /** Nothing in the hour counts of a disabled processor. */
    static method MeasureUsage(s: Sample) returns (u: Usage)
      ensures u == Used(s, Hours(s))
    {
      var p := if s.profile.Some? then s.profile.value else Profile(true, 100, 0, 1.0);
      var cpuCoreHours := 0.0;
      if p.cpuEnabled {
        cpuCoreHours := s.cpuCores as real * Hours(s);
      }
      u := Usage(cpuCoreHours, s.ramMB as real / 1024.0 * p.ramPct as real / 100.0 * Hours(s), p.storageGB as real / 730.0 * Hours(s));
    }

    /** Writes the job's row once; a job without both times, or already metered, leaves the table alone. */
    method ComputeMetering(id: string, job: Option<Sample>, prices: seq<RateRow>)
      modifies this
      ensures rows == if job.None? || id in old(rows) then old(rows) else old(rows)[id := Metered(job.value, prices)]
    {
      hide CostOf, Portion, Round, Used;
      if job.None? {
        return;
      }
      var s := job.value;
      var usage := MeasureUsage(s);
      var rates, share := FetchRates(prices);
      var cpu := if "cpu_core_hr" in rates then rates["cpu_core_hr"] else 0.0;
      var ram := if "ram_gb_hr" in rates then rates["ram_gb_hr"] else 0.0;
      var storage := if "storage_gb_mo" in rates then rates["storage_gb_mo"] else 0.0;
      var totalCost := CostOf(usage, cpu, ram, storage, ProfileOf(s).priceMultiplier);
      var paid := Round(totalCost * 100.0);
      var earned := Round(Portion(paid as real, share));
      if id !in rows {
        rows := rows[id := Money(paid, earned, paid - earned)];
      }
    }
  }
}
