/**
 The per-address budget of authentication failures.  Only a 401 costs a token; an address
 without a whole token is answered 429 before the handler.  Times are seconds, as reals.
 */
module RateLimit {
  import opened Sequences

  const DEFAULT_BURST: real := 10.0
  const DEFAULT_REFILL: real := 0.2

  /** The limits the constructor settles on. */
  datatype Limits = Limits(burst: real, refill: real)

  predicate Positive(l: Limits) {
    l.burst > 0.0 && l.refill > 0.0
  }

  datatype Bucket = Bucket(tokens: real, lastSeen: real)

  type Buckets = map<string, Bucket>

  // ---------------------------------------------------------------------------
  // One bucket
  // ---------------------------------------------------------------------------

  function Min(x: real, y: real): real { if x < y then x else y }

  function Grown(l: Limits, tokens: real, seconds: real): real {
    Min(l.burst, tokens + seconds * l.refill)
  }

  /** The bucket after the time since it was last seen is credited; a new address starts full. */
  function Refilled(l: Limits, buckets: Buckets, ip: string, now: real): Bucket {
    if ip !in buckets then Bucket(l.burst, now)
    else if now > buckets[ip].lastSeen then Bucket(Grown(l, buckets[ip].tokens, now - buckets[ip].lastSeen), now)
    else buckets[ip]
  }

  /** The tokens the address would have at a time. */
  function Level(l: Limits, buckets: Buckets, ip: string, now: real): real {
    Refilled(l, buckets, ip, now).tokens
  }

  function Charged(b: Bucket): Bucket {
    b.(tokens := if b.tokens - 1.0 < 0.0 then 0.0 else b.tokens - 1.0)
  }

  function RetryAfter(l: Limits, tokens: real): int
    requires Positive(l)
  {
    var secs := ((1.0 - tokens) / l.refill).Floor + 1;
    if secs < 1 then 1 else secs
  }

  lemma GrowthAdds(l: Limits, tokens: real, x: real, y: real)
    requires Positive(l) && x >= 0.0 && y >= 0.0
    ensures Grown(l, Grown(l, tokens, x), y) == Grown(l, tokens, x + y)
    ensures Grown(l, tokens, x + y) <= Grown(l, tokens, x) + y * l.refill
    ensures tokens <= l.burst ==> Min(l.burst, tokens) <= Grown(l, tokens, x)
  {
    assert (x + y) * l.refill == x * l.refill + y * l.refill;
    NonNegative(x, l.refill);
    NonNegative(y, l.refill);
  }

  lemma NonNegative(x: real, y: real)
    requires x >= 0.0 && y >= 0.0
    ensures x * y >= 0.0
  {
  }

  /** After the advertised wait a whole token is there, exactly when the bucket can hold one. */
  lemma RetryAfterIsEnough(l: Limits, tokens: real, seconds: real)
    requires Positive(l) && 0.0 <= tokens < 1.0 && seconds >= RetryAfter(l, tokens) as real
    ensures Grown(l, tokens, seconds) >= 1.0 <==> l.burst >= 1.0
  {
    var need := (1.0 - tokens) / l.refill;
    assert need * l.refill == 1.0 - tokens;
    NonNegative(seconds - need, l.refill);
    assert (seconds - need) * l.refill == seconds * l.refill - need * l.refill;
  }

  // ---------------------------------------------------------------------------
  // Runs of requests, from any addresses
  // ---------------------------------------------------------------------------

  /** `inside` counts the let-through requests of an address that the handler has not answered. */
  datatype Sys = Sys(buckets: Buckets, inside: map<string, nat>, clock: real)

  datatype Step = Begin | Finish(unauthorized: bool)

  datatype Event = Event(now: real, ip: string, step: Step)

  function Inside(s: Sys, ip: string): nat {
    if ip in s.inside then s.inside[ip] else 0
  }

  /** The request reaches the handler. */
  predicate LetThrough(l: Limits, s: Sys, e: Event) {
    e.step.Begin? && Level(l, s.buckets, e.ip, e.now) >= 1.0
  }

  /** The handler answers a request of this address with 401. */
  predicate Fails(s: Sys, e: Event, ip: string) {
    e.ip == ip && e.step == Finish(true) && Inside(s, ip) > 0
  }

  function Next(l: Limits, s: Sys, e: Event): Sys {
    match e.step
    case Begin =>
      Sys(s.buckets[e.ip := Refilled(l, s.buckets, e.ip, e.now)],
          if LetThrough(l, s, e) then s.inside[e.ip := Inside(s, e.ip) + 1] else s.inside, e.now)
    case Finish(unauthorized) =>
      if Inside(s, e.ip) == 0 then s.(clock := e.now)
      else Sys(if unauthorized then s.buckets[e.ip := Charged(Refilled(l, s.buckets, e.ip, e.now))] else s.buckets,
               s.inside[e.ip := Inside(s, e.ip) - 1], e.now)
  }

  ghost predicate IsRun(l: Limits, states: seq<Sys>, events: seq<Event>) {
    && Positive(l) && |states| == |events| + 1
    && states[0].buckets == map[] && states[0].inside == map[]
    && (forall i {:trigger Marked(i)} | 0 <= i < |events| ::
          events[i].now >= states[i].clock && states[i + 1] == Next(l, states[i], events[i]))
  }

  lemma StepOf(l: Limits, states: seq<Sys>, events: seq<Event>, i: nat)
    requires IsRun(l, states, events) && i < |events|
    ensures events[i].now >= states[i].clock && states[i + 1] == Next(l, states[i], events[i])
  {
    assert Marked(i);
  }

  /** An address never has more than k requests in the handler. */
  ghost predicate AtMost(states: seq<Sys>, ip: string, k: nat) {
    forall i | 0 <= i < |states| :: Inside(states[i], ip) <= k
  }

  ghost predicate BucketInv(l: Limits, s: Sys) {
    forall ip | ip in s.buckets :: 0.0 <= s.buckets[ip].tokens <= l.burst && s.buckets[ip].lastSeen <= s.clock
  }

  lemma RefillInRange(l: Limits, s: Sys, ip: string, now: real)
    requires Positive(l) && BucketInv(l, s) && now >= s.clock
    ensures var b := Refilled(l, s.buckets, ip, now);
            0.0 <= b.tokens <= l.burst && b.lastSeen == now && (ip in s.buckets ==> s.buckets[ip].tokens <= b.tokens)
  {
    if ip in s.buckets && now > s.buckets[ip].lastSeen {
      GrowthAdds(l, s.buckets[ip].tokens, now - s.buckets[ip].lastSeen, 0.0);
    }
  }

  lemma StepKeepsBuckets(l: Limits, s: Sys, e: Event)
    requires Positive(l) && BucketInv(l, s) && e.now >= s.clock
    ensures BucketInv(l, Next(l, s, e))
  {
    RefillInRange(l, s, e.ip, e.now);
    hide Refilled;
  }

  lemma {:induction false} RunKeepsBuckets(l: Limits, states: seq<Sys>, events: seq<Event>, n: nat)
    requires IsRun(l, states, events) && n < |states|
    ensures BucketInv(l, states[n])
  {
    hide Next;
    if n > 0 {
      RunKeepsBuckets(l, states, events, n - 1);
      StepOf(l, states, events, n - 1);
      StepKeepsBuckets(l, states[n - 1], events[n - 1]);
    }
  }

  // ---------------------------------------------------------------------------
  // The budget
  // ---------------------------------------------------------------------------

  /** Failures of the address among events i to j - 1. */
  ghost function Failures(states: seq<Sys>, events: seq<Event>, ip: string, i: nat, j: nat): nat
    requires |states| == |events| + 1 && i <= j <= |events|
  {
    if i == j then 0 else Failures(states, events, ip, i, j - 1) + if Fails(states[j - 1], events[j - 1], ip) then 1 else 0
  }

  /** The refill of a span, and k times an amount. */
  function Gain(l: Limits, from: real, until: real): real { (until - from) * l.refill }

  function Times(k: nat, x: real): real { k as real * x }

  /** Time adds at most the refill. */
  lemma LevelGrows(l: Limits, s: Sys, ip: string, t: real, t': real)
    requires Positive(l) && BucketInv(l, s) && s.clock <= t <= t'
    ensures Level(l, s.buckets, ip, t') <= Level(l, s.buckets, ip, t) + Gain(l, t, t')
    ensures Level(l, s.buckets, ip, t') == Grown(l, Level(l, s.buckets, ip, t), t' - t)
    ensures Level(l, s.buckets, ip, t) <= Level(l, s.buckets, ip, t')
    ensures 0.0 <= Level(l, s.buckets, ip, t) <= l.burst
  {
    RefillInRange(l, s, ip, t);
    NonNegative(t' - t, l.refill);
    if ip in s.buckets {
      var b := s.buckets[ip];
      GrowthAdds(l, b.tokens, t - b.lastSeen, t' - t);
      assert t - b.lastSeen + (t' - t) == t' - b.lastSeen;
      assert 0.0 * l.refill == 0.0;
    }
  }

  /** A failure takes one token, or what is left; nothing else changes what the address has now or later. */
  lemma StepLevel(l: Limits, s: Sys, e: Event, ip: string, t: real)
    requires Positive(l) && BucketInv(l, s) && s.clock <= e.now <= t
    ensures var s' := Next(l, s, e);
            var level := Level(l, s.buckets, ip, e.now);
            && (Fails(s, e, ip) ==> Level(l, s'.buckets, ip, e.now) == if level < 1.0 then 0.0 else level - 1.0)
            && (!Fails(s, e, ip) ==> Level(l, s'.buckets, ip, t) == Level(l, s.buckets, ip, t))
  {
    RefillInRange(l, s, ip, e.now);
    LevelGrows(l, s, ip, e.now, t);
    assert t > e.now || t - e.now == 0.0;
    assert 0.0 * l.refill == 0.0;
  }

  lemma StepInside(l: Limits, s: Sys, e: Event, ip: string)
    ensures Fails(s, e, ip) ==> Inside(Next(l, s, e), ip) == Inside(s, ip) - 1
    ensures Inside(Next(l, s, e), ip) > Inside(s, ip) ==> Level(l, s.buckets, ip, e.now) >= 1.0
  {
    hide Refilled;
  }

  /** The failures a level of tokens can still lead to: up to k on the last whole token, one on each above. */
  function Potential(k: real, level: real): real {
    if level < 1.0 then k * level else level + k - 1.0
  }

  /** What is left of the allowance covers that, and every request inside while there is no whole token. */
  predicate Backed(k: real, allowance: real, level: real, inside: nat) {
    allowance >= Potential(k, level) && (level < 1.0 ==> allowance >= inside as real)
  }

  lemma BackedFailure(k: nat, allowance: real, level: real, inside: nat)
    requires Backed(k as real, allowance, level, inside) && 0 < inside <= k
    ensures Backed(k as real, allowance - 1.0, if level < 1.0 then 0.0 else level - 1.0, inside - 1)
  {
    if 1.0 <= level < 2.0 {
      BelowOne(k as real, level - 1.0);
    }
  }

  /** Below one token the potential is at most what the line above it gives. */
  lemma BelowOne(k: real, level: real)
    requires k >= 1.0 && level <= 1.0
    ensures k * level <= level + k - 1.0
  {
    NonNegative(k - 1.0, 1.0 - level);
    assert (k - 1.0) * (1.0 - level) == k - 1.0 - k * level + level;
  }

  lemma AboveOne(k: real, level: real)
    requires k >= 1.0 && level >= 1.0
    ensures level + k - 1.0 <= k * level
  {
    NonNegative(k - 1.0, level - 1.0);
    assert (k - 1.0) * (level - 1.0) == k * level - k - level + 1.0;
  }

  lemma BackedGrowth(k: nat, allowance: real, level: real, level': real, gain: real, inside: nat)
    requires k >= 1 && Backed(k as real, allowance, level, inside) && level <= level' <= level + gain
    ensures Backed(k as real, allowance + Times(k, gain), level', inside)
  {
    var factor := k as real;
    NonNegative(factor, level + gain - level');
    assert factor * (level + gain - level') == factor * level + factor * gain - factor * level';
    NonNegative(factor, gain);
    if level >= 1.0 {
      NonNegative(factor - 1.0, gain);
      assert (factor - 1.0) * gain == factor * gain - gain;
    } else if level' >= 1.0 {
      AboveOne(factor, level');
    }
  }

  lemma BackedStep(l: Limits, s: Sys, e: Event, ip: string, k: nat, allowance: real)
    requires Positive(l) && BucketInv(l, s) && s.clock <= e.now && Inside(s, ip) <= k
    requires Backed(k as real, allowance, Level(l, s.buckets, ip, e.now), Inside(s, ip))
    ensures Backed(k as real, allowance - (if Fails(s, e, ip) then 1.0 else 0.0),
                   Level(l, Next(l, s, e).buckets, ip, e.now), Inside(Next(l, s, e), ip))
  {
    StepLevel(l, s, e, ip, e.now);
    StepInside(l, s, e, ip);
    if Fails(s, e, ip) {
      BackedFailure(k, allowance, Level(l, s.buckets, ip, e.now), Inside(s, ip));
    }
    hide Next, Level, Fails, Inside;
  }

  /** Below one token of burst nothing is ever let in. */
  lemma {:induction false} NoneInside(l: Limits, states: seq<Sys>, events: seq<Event>, ip: string, n: nat)
    requires IsRun(l, states, events) && n < |states| && l.burst < 1.0
    ensures Inside(states[n], ip) == 0
  {
    hide Next;
    if n > 0 {
      NoneInside(l, states, events, ip, n - 1);
      RunKeepsBuckets(l, states, events, n - 1);
      StepOf(l, states, events, n - 1);
      StepInside(l, states[n - 1], events[n - 1], ip);
      LevelGrows(l, states[n - 1], ip, events[n - 1].now, events[n - 1].now);
    }
  }

  /** What a full bucket allows at once. */
  function Burst(l: Limits, k: nat): real { l.burst + k as real - 1.0 }

  lemma StartsBacked(l: Limits, states: seq<Sys>, events: seq<Event>, ip: string, k: nat, i: nat)
    requires IsRun(l, states, events) && AtMost(states, ip, k) && k >= 1 && i < |events|
    ensures Backed(k as real, Burst(l, k), Level(l, states[i].buckets, ip, events[i].now), Inside(states[i], ip))
  {
    hide Next, Level;
    RunKeepsBuckets(l, states, events, i);
    StepOf(l, states, events, i);
    var level := Level(l, states[i].buckets, ip, events[i].now);
    LevelGrows(l, states[i], ip, events[i].now, events[i].now);
    if level < 1.0 {
      BelowOne(k as real, level);
    }
    if l.burst < 1.0 {
      NoneInside(l, states, events, ip, i);
    }
  }

  /** The allowance of a span, less its failures. */
  ghost function Allowance(l: Limits, states: seq<Sys>, events: seq<Event>, ip: string, k: nat, i: nat, j: nat): real
    requires |states| == |events| + 1 && i <= j < |events|
  {
    Burst(l, k) + Times(k, Gain(l, events[i].now, events[j].now)) - Failures(states, events, ip, i, j + 1) as real
  }

  lemma AllowanceStarts(l: Limits, states: seq<Sys>, events: seq<Event>, ip: string, k: nat, i: nat)
    requires |states| == |events| + 1 && i < |events|
    ensures Allowance(l, states, events, ip, k, i, i) == Burst(l, k) - if Fails(states[i], events[i], ip) then 1.0 else 0.0
  {
    Spans(events[i].now, events[i].now, events[i].now, l.refill);
    assert Failures(states, events, ip, i, i) == 0;
  }

  lemma AllowanceGrows(l: Limits, states: seq<Sys>, events: seq<Event>, ip: string, k: nat, i: nat, j: nat)
    requires |states| == |events| + 1 && i < j < |events|
    ensures Allowance(l, states, events, ip, k, i, j) ==
            Allowance(l, states, events, ip, k, i, j - 1) + Times(k, Gain(l, events[j - 1].now, events[j].now))
            - if Fails(states[j], events[j], ip) then 1.0 else 0.0
  {
    Spans(events[i].now, events[j - 1].now, events[j].now, l.refill);
    Distributes(k as real, Gain(l, events[i].now, events[j - 1].now), Gain(l, events[j - 1].now, events[j].now));
  }

  lemma Distributes(k: real, x: real, y: real)
    ensures k * (x + y) == k * x + k * y
  {
  }

  lemma {:induction false} FailuresAreCharged(l: Limits, states: seq<Sys>, events: seq<Event>, ip: string, k: nat, i: nat, j: nat)
    requires IsRun(l, states, events) && AtMost(states, ip, k) && k >= 1 && i <= j < |events|
    ensures Backed(k as real, Allowance(l, states, events, ip, k, i, j), Level(l, states[j + 1].buckets, ip, events[j].now),
                   Inside(states[j + 1], ip))
  {
    hide Next, Level, Fails, Backed, Inside, Allowance, Times, Gain;
    RunKeepsBuckets(l, states, events, j);
    StepOf(l, states, events, j);
    assert Inside(states[j], ip) <= k;
    if i == j {
      AllowanceStarts(l, states, events, ip, k, i);
      StartsBacked(l, states, events, ip, k, i);
      BackedStep(l, states[j], events[j], ip, k, Burst(l, k));
    } else {
      FailuresAreCharged(l, states, events, ip, k, i, j - 1);
      ClockIsEventTime(l, states, events, j - 1);
      var before, gain := Allowance(l, states, events, ip, k, i, j - 1), Gain(l, events[j - 1].now, events[j].now);
      LevelGrows(l, states[j], ip, events[j - 1].now, events[j].now);
      BackedGrowth(k, before, Level(l, states[j].buckets, ip, events[j - 1].now), Level(l, states[j].buckets, ip, events[j].now), gain,
                   Inside(states[j], ip));
      BackedStep(l, states[j], events[j], ip, k, before + Times(k, gain));
      AllowanceGrows(l, states, events, ip, k, i, j);
    }
  }

  lemma ClockIsEventTime(l: Limits, states: seq<Sys>, events: seq<Event>, i: nat)
    requires IsRun(l, states, events) && i < |events|
    ensures states[i + 1].clock == events[i].now
  {
    StepOf(l, states, events, i);
  }

  lemma Spans(a: real, b: real, c: real, rate: real)
    ensures (b - a) * rate + (c - b) * rate == (c - a) * rate
    ensures a == c ==> (c - a) * rate == 0.0
  {
    assert (b - a) * rate + (c - b) * rate == ((b - a) + (c - b)) * rate;
  }

  /**
   Between two events, whatever other addresses do, an address that never has more than k
   requests in the handler has at most burst + (k - 1) + k * refill * span failures; for one
   request at a time that is the advertised budget.
   */
  lemma FailuresAreBounded(l: Limits, states: seq<Sys>, events: seq<Event>, ip: string, k: nat, i: nat, j: nat)
    requires IsRun(l, states, events) && AtMost(states, ip, k) && k >= 1 && i <= j < |events|
    ensures Failures(states, events, ip, i, j + 1) as real <= l.burst + (k - 1) as real + Times(k, Gain(l, events[i].now, events[j].now))
  {
    hide Next, Level, Failures, Inside, Times, Gain;
    FailuresAreCharged(l, states, events, ip, k, i, j);
    RunKeepsBuckets(l, states, events, j + 1);
    ClockIsEventTime(l, states, events, j);
    LevelGrows(l, states[j + 1], ip, events[j].now, events[j].now);
    NonNegative(k as real, Level(l, states[j + 1].buckets, ip, events[j].now));
  }

  /** The bound is attained: two overlapping requests both fail on a single token. */
  lemma OverlappingRequestsOverspend(l: Limits, s0: Sys, s1: Sys, s2: Sys, s3: Sys, s4: Sys, ip: string)
    requires l == Limits(1.0, 1.0) && s0 == Sys(map[], map[], 0.0)
    requires s1 == Next(l, s0, Event(0.0, ip, Begin)) && s2 == Next(l, s1, Event(0.0, ip, Begin))
    requires s3 == Next(l, s2, Event(0.0, ip, Finish(true))) && s4 == Next(l, s3, Event(0.0, ip, Finish(true)))
    ensures Fails(s2, Event(0.0, ip, Finish(true)), ip) && Fails(s3, Event(0.0, ip, Finish(true)), ip)
  {
    assert Inside(s2, ip) == 2;
  }

  // ---------------------------------------------------------------------------
  // Recovery
  // ---------------------------------------------------------------------------

  /** Without a failure the level at any later time is what it would have been. */
  lemma {:induction false} LevelStays(l: Limits, states: seq<Sys>, events: seq<Event>, ip: string, m: nat, n: nat, t: real)
    requires IsRun(l, states, events) && m <= n < |events| && t >= events[n].now
    requires forall k | m <= k < n :: !Fails(states[k], events[k], ip)
    ensures Level(l, states[n].buckets, ip, t) == Level(l, states[m].buckets, ip, t)
  {
    hide Next, Level, Fails;
    if m < n {
      StepOf(l, states, events, n - 1);
      StepOf(l, states, events, n);
      ClockIsEventTime(l, states, events, n - 1);
      LevelStays(l, states, events, ip, m, n - 1, t);
      RunKeepsBuckets(l, states, events, n - 1);
      StepLevel(l, states[n - 1], events[n - 1], ip, t);
    }
  }

  /**
   A refused address that waits out the advertised time without another failure is let
   through, exactly when the bucket can hold a whole token.
   */
  lemma RecoversExactlyWhen(l: Limits, states: seq<Sys>, events: seq<Event>, m: nat, n: nat)
    requires IsRun(l, states, events) && m < n < |events|
    requires events[m].step.Begin? && !LetThrough(l, states[m], events[m])
    requires events[n].step.Begin? && events[n].ip == events[m].ip
    requires events[n].now >= events[m].now + RetryAfter(l, Level(l, states[m].buckets, events[m].ip, events[m].now)) as real
    requires forall k | m <= k < n :: !Fails(states[k], events[k], events[m].ip)
    ensures LetThrough(l, states[n], events[n]) <==> l.burst >= 1.0
  {
    hide Next, Level, RetryAfter, Fails, Grown;
    var ip := events[m].ip;
    var level := Level(l, states[m].buckets, ip, events[m].now);
    RunKeepsBuckets(l, states, events, m);
    StepOf(l, states, events, m);
    LevelStays(l, states, events, ip, m, n, events[n].now);
    assert RetryAfter(l, level) >= 1 by {
      RetryAfterIsPositive(l, level);
    }
    LevelGrows(l, states[m], ip, events[m].now, events[n].now);
    RetryAfterIsEnough(l, level, events[n].now - events[m].now);
  }

  lemma RetryAfterIsPositive(l: Limits, tokens: real)
    requires Positive(l)
    ensures RetryAfter(l, tokens) >= 1
  {
  }

  /** Below one token of burst no request is ever let through, however long an address waits. */
  lemma SmallBurstLocksOut(l: Limits, states: seq<Sys>, events: seq<Event>, i: nat)
    requires IsRun(l, states, events) && i < |events| && l.burst < 1.0
    ensures !LetThrough(l, states[i], events[i])
  {
    hide Next, Level;
    RunKeepsBuckets(l, states, events, i);
    StepOf(l, states, events, i);
    LevelGrows(l, states[i], events[i].ip, events[i].now, events[i].now);
  }

  /** The advertised wait is the least whole number of seconds above the time a whole token takes. */
  lemma RetryAfterIsLeast(l: Limits, tokens: real)
    requires Positive(l) && 0.0 <= tokens < 1.0
    ensures (RetryAfter(l, tokens) - 1) as real * l.refill <= 1.0 - tokens < RetryAfter(l, tokens) as real * l.refill
  {
    var need := (1.0 - tokens) / l.refill;
    assert need * l.refill == 1.0 - tokens;
    assert RetryAfter(l, tokens) == need.Floor + 1;
    FloorBrackets(need, l.refill);
  }

  lemma FloorBrackets(need: real, refill: real)
    requires refill > 0.0
    ensures (need.Floor + 1 - 1) as real * refill <= need * refill < (need.Floor + 1) as real * refill
  {
    Increases(need.Floor as real, need, refill);
    Increases(need, (need.Floor + 1) as real, refill);
  }

  lemma Increases(x: real, y: real, refill: real)
    requires x <= y && refill > 0.0
    ensures x * refill <= y * refill && (x < y ==> x * refill < y * refill)
  {
  }

  lemma {:induction false} UnseenAddress(l: Limits, states: seq<Sys>, events: seq<Event>, n: nat, ip: string)
    requires IsRun(l, states, events) && n < |states| && forall i | 0 <= i < n :: events[i].ip != ip
    ensures ip !in states[n].buckets
  {
    if n > 0 {
      UnseenAddress(l, states, events, n - 1, ip);
      StepOf(l, states, events, n - 1);
    }
  }

  /** An address starts with a full bucket: its first request is let through exactly when the burst holds a token. */
  lemma FirstRequestExactlyWhen(l: Limits, states: seq<Sys>, events: seq<Event>, n: nat)
    requires IsRun(l, states, events) && n < |events| && events[n].step.Begin?
    requires forall i | 0 <= i < n :: events[i].ip != events[n].ip
    ensures Level(l, states[n].buckets, events[n].ip, events[n].now) == l.burst
    ensures LetThrough(l, states[n], events[n]) <==> l.burst >= 1.0
  {
    UnseenAddress(l, states, events, n, events[n].ip);
  }

  // ---------------------------------------------------------------------------
  // The limiter
  // ---------------------------------------------------------------------------

  class AuthFailureLimiter {
    var buckets: Buckets
    const limits: Limits

    /** A limit that is not positive is replaced by its default; a small positive one is kept. */
    constructor (burst: real, refillPerSec: real)
      ensures buckets == map[] && Positive(limits)
      ensures limits.burst == (if burst <= 0.0 then DEFAULT_BURST else burst)
      ensures limits.refill == (if refillPerSec <= 0.0 then DEFAULT_REFILL else refillPerSec)
    {
      buckets := map[];
      limits := Limits(if burst <= 0.0 then DEFAULT_BURST else burst, if refillPerSec <= 0.0 then DEFAULT_REFILL else refillPerSec);
    }

    method RefillLocked(ip: string, now: real)
      modifies this
      ensures buckets == old(buckets)[ip := Refilled(limits, old(buckets), ip, now)]
    {
      if ip !in buckets {
        buckets := buckets[ip := Bucket(limits.burst, now)];
        return;
      }
      var b := buckets[ip];
      var elapsed := now - b.lastSeen;
      if elapsed > 0.0 {
        var tokens := b.tokens + elapsed * limits.refill;
        assert Grown(limits, b.tokens, elapsed) == Min(limits.burst, tokens);
        if tokens > limits.burst {
          tokens := limits.burst;
        }
        buckets := buckets[ip := Bucket(tokens, now)];
      } else {
        assert buckets[ip := b] == buckets;
      }
    }

    method Allow(ip: string, now: real) returns (ok: bool, retryAfter: int)
      requires Positive(limits)
      modifies this
      ensures buckets == old(buckets)[ip := Refilled(limits, old(buckets), ip, now)]
      ensures ok <==> Level(limits, old(buckets), ip, now) >= 1.0
      ensures retryAfter == if ok then 0 else RetryAfter(limits, Level(limits, old(buckets), ip, now))
    {
      RefillLocked(ip, now);
      if buckets[ip].tokens >= 1.0 {
        return true, 0;
      }
      var need := 1.0 - buckets[ip].tokens;
      var secs := (need / limits.refill).Floor + 1;
      if secs < 1 {
        secs := 1;
      }
      return false, secs;
    }

    method Penalize(ip: string, now: real)
      modifies this
      ensures buckets == old(buckets)[ip := Charged(Refilled(limits, old(buckets), ip, now))]
    {
      RefillLocked(ip, now);
      var b := buckets[ip];
      var tokens := b.tokens - 1.0;
      if tokens < 0.0 {
        tokens := 0.0;
      }
      buckets := buckets[ip := b.(tokens := tokens)];
    }

    /** A whole request; `status` is what the handler would answer, `done` when.  Other addresses keep their buckets. */
    method Wrap(ip: string, status: int, now: real, done: real) returns (answer: int)
      requires Positive(limits)
      modifies this
      ensures answer == if Level(limits, old(buckets), ip, now) >= 1.0 then status else 429
      ensures forall other | other != ip && other in old(buckets) :: other in buckets && buckets[other] == old(buckets)[other]
      ensures var began := Next(limits, Sys(old(buckets), map[], now), Event(now, ip, Begin));
              buckets == Next(limits, began, Event(done, ip, Finish(status == 401))).buckets
    {
      var ok, _ := Allow(ip, now);
      if !ok {
        return 429;
      }
      if status == 401 {
        Penalize(ip, done);
      }
      return status;
    }
  }
}
