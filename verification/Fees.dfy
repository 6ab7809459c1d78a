/**
 Fee declarations: signed terms a coordinator publishes, each with a higher number and a later
 effective time than the one before.  Times are integers; numbers are unsigned 64-bit and are
 stored in a signed column that refuses negative values.
 */
module Fees {
  import opened Wrappers
  import opened Sequences

  const TWO_63: int := 0x8000_0000_0000_0000
  const TWO_64: int := 0x1_0000_0000_0000_0000

  newtype uint64 = x: int | 0 <= x < 0x1_0000_0000_0000_0000

  datatype Terms = Terms(contributorShareBps: int, platformFeeBps: int)

  datatype Declaration = Declaration(coordinator: string, terms: Terms, effectiveAt: int, seqNo: uint64, signature: seq<bv8>)

  datatype Outcome = Published | Unsigned | SeqNotMonotonic | Retroactive | InsertFailed

  datatype View = View(declaration: Declaration, isCurrent: bool)

  // ---------------------------------------------------------------------------
  // History
  // ---------------------------------------------------------------------------

  /** A coordinator's declarations in the order they were published. */
  function History(rows: seq<Declaration>, coordinator: string): seq<Declaration> {
    if rows == [] then []
    else
      var n := |rows| - 1;
      History(rows[..n], coordinator) + if rows[n].coordinator == coordinator then [rows[n]] else []
  }

  predicate Increasing(h: seq<Declaration>) {
    forall i, j | 0 <= i < j < |h| :: h[i].seqNo < h[j].seqNo && h[i].effectiveAt < h[j].effectiveAt
  }

  ghost predicate Inv(rows: seq<Declaration>) {
    && (forall coordinator :: Increasing(History(rows, coordinator)))
    && (forall d | d in rows :: d.seqNo as int < TWO_63)
  }

  function Last(h: seq<Declaration>): Declaration
    requires h != []
  {
    h[|h| - 1]
  }

  /** The declaration whose terms apply at a time: the latest already effective. */
  function InForce(h: seq<Declaration>, t: int): Option<Declaration> {
    if h == [] then None else if Last(h).effectiveAt <= t then Some(Last(h)) else InForce(h[..|h| - 1], t)
  }

  lemma HistoryMore(rows: seq<Declaration>, d: Declaration, coordinator: string)
    ensures History(rows + [d], coordinator) == History(rows, coordinator) + if d.coordinator == coordinator then [d] else []
  {
    assert (rows + [d])[..|rows|] == rows;
  }

  lemma {:induction false} HistoryMembers(rows: seq<Declaration>, coordinator: string, d: Declaration)
    ensures d in History(rows, coordinator) <==> d in rows && d.coordinator == coordinator
  {
    if rows != [] {
      var n := |rows| - 1;
      HistoryMembers(rows[..n], coordinator, d);
      assert rows == rows[..n] + [rows[n]];
    }
  }

  // ---------------------------------------------------------------------------
  // Publishing
  // ---------------------------------------------------------------------------

  /** The check constraints of the row: the number is stored as a signed 64-bit value. */
  predicate Storable(d: Declaration) {
    d.seqNo as int < TWO_63 && d.terms.contributorShareBps >= 0 && d.terms.platformFeeBps >= 0
  }

  function Verdict(h: seq<Declaration>, d: Declaration): Outcome {
    if d.signature == [] then Unsigned
    else if h != [] && d.seqNo <= Last(h).seqNo then SeqNotMonotonic
    else if h != [] && d.effectiveAt <= Last(h).effectiveAt then Retroactive
    else if !Storable(d) then InsertFailed
    else Published
  }

  function Publish(rows: seq<Declaration>, d: Declaration): seq<Declaration> {
    if Verdict(History(rows, d.coordinator), d).Published? then rows + [d] else rows
  }

  lemma PublishKeepsInv(rows: seq<Declaration>, d: Declaration)
    requires Inv(rows)
    ensures Inv(Publish(rows, d))
    ensures forall c | c != d.coordinator :: History(Publish(rows, d), c) == History(rows, c)
  {
    hide History;
    forall c ensures Increasing(History(Publish(rows, d), c)) && (c != d.coordinator ==> History(Publish(rows, d), c) == History(rows, c)) {
      HistoryMore(rows, d, c);
      assert Increasing(History(rows, c));
    }
  }

  /** Nothing changes for any instant before the new declaration takes effect, and it applies from then on. */
  lemma PublishIsNotRetroactive(h: seq<Declaration>, d: Declaration, t: int)
    requires Increasing(h) && Verdict(h, d).Published?
    ensures InForce(h + [d], t) == if t < d.effectiveAt then InForce(h, t) else Some(d)
  {
    assert (h + [d])[..|h|] == h;
  }

  lemma {:induction false} InForceIsListed(h: seq<Declaration>, t: int)
    ensures InForce(h, t).Some? ==> InForce(h, t).value in h && InForce(h, t).value.effectiveAt <= t
    ensures Increasing(h) && InForce(h, t).Some? ==> forall d | d in h && d.effectiveAt <= t :: d.effectiveAt <= InForce(h, t).value.effectiveAt
    ensures InForce(h, t).None? ==> forall d | d in h :: d.effectiveAt > t
  {
    if h != [] {
      InForceIsListed(h[..|h| - 1], t);
      assert h == h[..|h| - 1] + [Last(h)];
    }
  }

  /** Two histories have the same declaration in force at every time up to now. */
  ghost predicate Agree(h: seq<Declaration>, h': seq<Declaration>, now: int) {
    forall t | t <= now :: InForce(h, t) == InForce(h', t)
  }

  lemma NewIsNotListed(h: seq<Declaration>, d: Declaration)
    requires Increasing(h) && Verdict(h, d).Published?
    ensures d !in h
  {
    forall i | 0 <= i < |h| ensures h[i] != d {
      assert h[i].seqNo <= Last(h).seqNo;
    }
  }

  /**
   What was in force up to the moment of publishing stays as it was exactly when the new
   declaration takes effect later than that moment, which publishing does not check.
   */
  lemma PastUntouchedExactlyWhen(h: seq<Declaration>, d: Declaration, now: int)
    requires Increasing(h) && Verdict(h, d).Published?
    ensures Agree(h, h + [d], now) <==> now < d.effectiveAt
  {
    forall t ensures InForce(h + [d], t) == if t < d.effectiveAt then InForce(h, t) else Some(d) {
      PublishIsNotRetroactive(h, d, t);
    }
    if d.effectiveAt <= now {
      var t := d.effectiveAt;
      InForceIsListed(h, t);
      NewIsNotListed(h, d);
      assert InForce(h, t) != InForce(h + [d], t);
    }
  }

  /** Where a time falls in an increasing history: before all of it, or at or after one declaration and before the next. */
  predicate InForceAt(h: seq<Declaration>, t: int, k: int)
    requires -1 <= k < |h|
  {
    (k >= 0 ==> h[k].effectiveAt <= t) && (k + 1 < |h| ==> t < h[k + 1].effectiveAt)
  }

  /** The declaration in force is the one at that place, and there is just one such place. */
  lemma {:induction false} InForceIsPlaced(h: seq<Declaration>, t: int, k: int)
    requires Increasing(h) && -1 <= k < |h|
    ensures InForceAt(h, t, k) <==> InForce(h, t) == if k < 0 then None else Some(h[k])
  {
    if h != [] {
      var n := |h| - 1;
      assert InForce(h, t) == if h[n].effectiveAt <= t then Some(h[n]) else InForce(h[..n], t);
      InForceIsListed(h[..n], t);
      if k < n {
        InForceIsPlaced(h[..n], t, k);
        assert h[k + 1].effectiveAt <= h[n].effectiveAt;
      }
    }
  }

  /** At noon a declaration effective from ten is accepted, and what applied at eleven changes. */
  lemma BackdatedPublish(first: Declaration, second: Declaration)
    requires first == Declaration("c", Terms(6500, 3500), 8, 0, [1]) && second == Declaration("c", Terms(5000, 5000), 10, 1, [1])
    ensures Verdict([first], second).Published? && !Agree([first], [first, second], 12)
    ensures InForce([first], 11) == Some(first) && InForce([first, second], 11) == Some(second)
  {
    assert [first] + [second] == [first, second];
    PastUntouchedExactlyWhen([first], second, 12);
    PublishIsNotRetroactive([first], second, 11);
  }

  // ---------------------------------------------------------------------------
  // Runs of publishes
  // ---------------------------------------------------------------------------

  ghost predicate IsRun(states: seq<seq<Declaration>>, calls: seq<Declaration>) {
    && |states| == |calls| + 1 && states[0] == []
    && (forall i {:trigger Marked(i)} | 0 <= i < |calls| :: states[i + 1] == Publish(states[i], calls[i]))
  }

  lemma {:induction false} RunKeepsInv(states: seq<seq<Declaration>>, calls: seq<Declaration>, n: nat)
    requires IsRun(states, calls) && n < |states|
    ensures Inv(states[n])
  {
    hide Publish;
    if n > 0 {
      RunKeepsInv(states, calls, n - 1);
      assert Marked(n - 1);
      PublishKeepsInv(states[n - 1], calls[n - 1]);
    }
  }

  /** A history only grows at its end. */
  lemma {:induction false} HistoryOnlyGrows(states: seq<seq<Declaration>>, calls: seq<Declaration>, coordinator: string, m: nat, n: nat)
    requires IsRun(states, calls) && m <= n < |states|
    ensures History(states[m], coordinator) <= History(states[n], coordinator)
  {
    hide History;
    if m < n {
      HistoryOnlyGrows(states, calls, coordinator, m, n - 1);
      assert Marked(n - 1);
      HistoryMore(states[n - 1], calls[n - 1], coordinator);
    }
  }

  /** Declarations that take effect later do not matter. */
  lemma {:induction false} LaterIgnored(h: seq<Declaration>, k: nat, t: int)
    requires k <= |h| && forall i | k <= i < |h| :: h[i].effectiveAt > t
    ensures InForce(h, t) == InForce(h[..k], t)
  {
    if k < |h| {
      LaterIgnored(h[..|h| - 1], k, t);
      assert h[..|h| - 1][..k] == h[..k];
    } else {
      assert h[..k] == h;
    }
  }

  /** Whatever is published later, the terms at every time up to a declaration's effective time are settled. */
  lemma InForceIsSettled(states: seq<seq<Declaration>>, calls: seq<Declaration>, coordinator: string, m: nat, n: nat, t: int)
    requires IsRun(states, calls) && m <= n < |states| && History(states[m], coordinator) != []
    requires t <= Last(History(states[m], coordinator)).effectiveAt
    ensures InForce(History(states[n], coordinator), t) == InForce(History(states[m], coordinator), t)
  {
    hide History, InForce, Publish;
    HistoryOnlyGrows(states, calls, coordinator, m, n);
    RunKeepsInv(states, calls, n);
    var h, k := History(states[n], coordinator), |History(states[m], coordinator)|;
    assert h[..k] == History(states[m], coordinator) && Increasing(h);
    assert h[k - 1] == Last(History(states[m], coordinator));
    LaterIgnored(h, k, t);
  }

  /** What the history endpoint shows: newest first, the first one marked current. */
  function Views(h: seq<Declaration>): (views: seq<View>)
    ensures |views| == |h| && forall i | 0 <= i < |h| :: views[i] == View(h[|h| - 1 - i], i == 0)
  {
    seq(|h|, i requires 0 <= i < |h| => View(h[|h| - 1 - i], i == 0))
  }

  /** The history as the loop builds it, newest first and none marked. */
  ghost predicate Backwards(views: seq<View>, h: seq<Declaration>) {
    |views| == |h| && forall i | 0 <= i < |h| :: views[i] == View(h[|h| - 1 - i], false)
  }

  lemma BackwardsNext(rows: seq<Declaration>, i: nat, coordinator: string, views: seq<View>)
    requires i < |rows| && Backwards(views, History(rows[..i], coordinator))
    ensures Backwards(if rows[i].coordinator == coordinator then [View(rows[i], false)] + views else views, History(rows[..i + 1], coordinator))
  {
    hide History, Backwards;
    var h := History(rows[..i], coordinator);
    assert rows[..i + 1] == rows[..i] + [rows[i]];
    HistoryMore(rows[..i], rows[i], coordinator);
    BackwardsMore(views, h, rows[i]);
    assert h + [] == h;
  }

  lemma BackwardsMore(views: seq<View>, h: seq<Declaration>, d: Declaration)
    requires Backwards(views, h)
    ensures Backwards([View(d, false)] + views, h + [d])
  {
  }

  lemma BackwardsMarked(views: seq<View>, rows: seq<Declaration>, coordinator: string)
    requires Backwards(views, History(rows[..|rows|], coordinator))
    ensures (if |views| > 0 then views[0 := views[0].(isCurrent := true)] else views) == Views(History(rows, coordinator))
  {
    assert rows[..|rows|] == rows;
  }

  /**
   In every run, the row shown as current is in force exactly from its effective time on;
   before that an older row is, the newest whose own time has come, or none.
   */
  lemma CurrentIsInForceExactlyWhen(states: seq<seq<Declaration>>, calls: seq<Declaration>, n: nat, coordinator: string, now: int, i: nat)
    requires IsRun(states, calls) && n < |states| && i < |Views(History(states[n], coordinator))|
    requires Views(History(states[n], coordinator))[i].isCurrent
    ensures var h := History(states[n], coordinator);
            var views := Views(h);
            && (InForce(h, now) == Some(views[i].declaration) <==> views[i].declaration.effectiveAt <= now)
            && (forall k | 0 <= k < |views| ::
                  InForce(h, now) == Some(views[k].declaration) <==>
                  views[k].declaration.effectiveAt <= now && (k > 0 ==> now < views[k - 1].declaration.effectiveAt))
            && (InForce(h, now).None? <==> now < views[|views| - 1].declaration.effectiveAt)
  {
    hide History, Publish, InForce;
    RunKeepsInv(states, calls, n);
    var h := History(states[n], coordinator);
    assert Increasing(h);
    forall k | -1 <= k < |h| ensures InForceAt(h, now, k) <==> InForce(h, now) == if k < 0 then None else Some(h[k]) {
      InForceIsPlaced(h, now, k);
    }
    forall k | 0 <= k < |h| ensures InForce(h, now) == Some(Views(h)[k].declaration) <==> InForceAt(h, now, |h| - 1 - k) {
      assert Views(h)[k].declaration == h[|h| - 1 - k];
    }
    assert InForce(h, now).None? <==> InForceAt(h, now, -1);
  }

  /** Such a case: the second declaration is shown as current while the first is in force. */
  lemma CurrentNotYetInForce(first: Declaration, second: Declaration)
    requires first == Declaration("c", Terms(6500, 3500), 8, 0, [1]) && second == Declaration("c", Terms(5000, 5000), 10, 1, [1])
    ensures Verdict([], first).Published? && Verdict([first], second).Published?
    ensures Views([first, second])[0] == View(second, true) && InForce([first, second], 9) == Some(first)
  {
    assert InForceAt([first, second], 9, 0);
    InForceIsPlaced([first, second], 9, 0);
  }

  // ---------------------------------------------------------------------------
  // The next number
  // ---------------------------------------------------------------------------

  function NextNumber(h: seq<Declaration>): uint64 {
    if h == [] then 0 else ((Last(h).seqNo as int + 1) % TWO_64) as uint64
  }

  /** The suggestion is the least number above all of the coordinator's rows. */
  lemma NextNumberIsLeast(rows: seq<Declaration>, coordinator: string)
    requires Inv(rows)
    ensures var next := NextNumber(History(rows, coordinator));
            && (forall d | d in rows && d.coordinator == coordinator :: d.seqNo < next)
            && (next > 0 ==> exists d :: d in rows && d.coordinator == coordinator && d.seqNo == next - 1)
  {
    if History(rows, coordinator) != [] {
      LastIsHighest(rows, coordinator);
    } else {
      forall d | d in rows ensures d.coordinator != coordinator {
        HistoryMembers(rows, coordinator, d);
      }
    }
  }

  /** The suggested number always passes the order check, and can be stored exactly below the last signed value. */
  lemma NextNumberPasses(rows: seq<Declaration>, d: Declaration)
    requires Inv(rows)
    requires d.seqNo == NextNumber(History(rows, d.coordinator)) && d.signature != []
    requires d.terms.contributorShareBps >= 0 && d.terms.platformFeeBps >= 0
    requires var h := History(rows, d.coordinator); h != [] ==> d.effectiveAt > Last(h).effectiveAt
    ensures var h := History(rows, d.coordinator);
            && !Verdict(h, d).SeqNotMonotonic?
            && (Verdict(h, d).Published? <==> h == [] || Last(h).seqNo as int < TWO_63 - 1)
  {
    var h := History(rows, d.coordinator);
    if h != [] {
      HistoryMembers(rows, d.coordinator, Last(h));
    }
  }

  /** After the highest storable number the suggested one is refused by the table. */
  lemma NumbersRunOut(last: Declaration, d: Declaration)
    requires last == Declaration("c", Terms(6500, 3500), 0, 0x7FFF_FFFF_FFFF_FFFF, [1])
    requires d == last.(effectiveAt := 1, seqNo := NextNumber([last]))
    ensures Verdict([last], d).InsertFailed?
  {
  }

  lemma ViewsDescend(rows: seq<Declaration>, coordinator: string)
    requires Inv(rows)
    ensures var views := Views(History(rows, coordinator));
            forall i, j | 0 <= i < j < |views| :: views[i].declaration.seqNo > views[j].declaration.seqNo
  {
    assert Increasing(History(rows, coordinator));
  }

  lemma LastIsHighest(rows: seq<Declaration>, coordinator: string)
    requires Inv(rows) && History(rows, coordinator) != []
    ensures var last := Last(History(rows, coordinator));
            && last in rows && last.coordinator == coordinator
            && forall d | d in rows && d.coordinator == coordinator :: d.seqNo <= last.seqNo && d.effectiveAt <= last.effectiveAt
  {
    hide History;
    var h := History(rows, coordinator);
    assert Increasing(h);
    HistoryMembers(rows, coordinator, Last(h));
    forall d | d in rows && d.coordinator == coordinator ensures d.seqNo <= Last(h).seqNo && d.effectiveAt <= Last(h).effectiveAt {
      HistoryMembers(rows, coordinator, d);
      var i :| 0 <= i < |h| && h[i] == d;
    }
  }

  /**
   The verdict on a declaration, from all rows of its coordinator: refused without a
   signature, then for a number not above all of theirs, then for a time not after all of
   theirs, then if the number does not fit 63 bits or a share is negative.
   */
  lemma PublishedExactlyWhen(rows: seq<Declaration>, d: Declaration)
    requires Inv(rows)
    ensures var verdict := Verdict(History(rows, d.coordinator), d);
            var above := forall x | x in rows && x.coordinator == d.coordinator :: d.seqNo > x.seqNo;
            var after := forall x | x in rows && x.coordinator == d.coordinator :: d.effectiveAt > x.effectiveAt;
            var fits := d.seqNo < 9223372036854775808 && d.terms.contributorShareBps >= 0 && d.terms.platformFeeBps >= 0;
            && (verdict.Unsigned? <==> d.signature == [])
            && (verdict.SeqNotMonotonic? <==> d.signature != [] && !above)
            && (verdict.Retroactive? <==> d.signature != [] && above && !after)
            && (verdict.InsertFailed? <==> d.signature != [] && above && after && !fits)
            && (verdict.Published? <==> d.signature != [] && above && after && fits)
            && Publish(rows, d) == if verdict.Published? then rows + [d] else rows
  {
    hide History;
    if History(rows, d.coordinator) != [] {
      LastIsHighest(rows, d.coordinator);
    } else {
      forall x | x in rows ensures x.coordinator != d.coordinator {
        HistoryMembers(rows, d.coordinator, x);
      }
    }
  }

  // ---------------------------------------------------------------------------
  // The table
  // ---------------------------------------------------------------------------

  class FeeTable {
    var rows: seq<Declaration>

    constructor ()
      ensures rows == [] && Inv(rows)
    {
      rows := [];
      new;
      assert forall c :: History(rows, c) == [];
    }

    /** The row with the highest number; by the invariant that is the one published last. */
    method CurrentFeeDeclaration(coordinator: string) returns (current: Option<Declaration>)
      requires Inv(rows)
      ensures current == if History(rows, coordinator) == [] then None else Some(Last(History(rows, coordinator)))
      ensures forall d | d in rows && d.coordinator == coordinator :: current.Some? && d.seqNo <= current.value.seqNo
    {
      current := None;
      for i := 0 to |rows|
        invariant current.None? <==> forall d | d in rows[..i] :: d.coordinator != coordinator
        invariant current.Some? ==> current.value in rows[..i] && current.value.coordinator == coordinator
        invariant forall d | d in rows[..i] && d.coordinator == coordinator :: current.Some? && d.seqNo <= current.value.seqNo
      {
        if rows[i].coordinator == coordinator && (current.None? || rows[i].seqNo > current.value.seqNo) {
          current := Some(rows[i]);
        }
      }
      assert rows[..|rows|] == rows;
      HighestIsLast(rows, coordinator, current);
    }

    /** Refuses in this order: no signature, a number not higher, a time not later, a row the table refuses. */
    method PublishFeeDeclaration(d: Declaration) returns (outcome: Outcome)
      requires Inv(rows)
      modifies this
      ensures Inv(rows) && rows == Publish(old(rows), d)
      ensures outcome == Verdict(History(old(rows), d.coordinator), d)
    {
      hide History;
      PublishKeepsInv(rows, d);
      if |d.signature| == 0 {
        return Unsigned;
      }
      var current := CurrentFeeDeclaration(d.coordinator);
      if current.Some? {
        if d.seqNo <= current.value.seqNo {
          return SeqNotMonotonic;
        }
        if d.effectiveAt <= current.value.effectiveAt {
          return Retroactive;
        }
      }
      var stored := if d.seqNo as int >= TWO_63 then d.seqNo as int - TWO_64 else d.seqNo as int;
      if stored < 0 || d.terms.contributorShareBps < 0 || d.terms.platformFeeBps < 0 {
        return InsertFailed;
      }
      rows := rows + [d];
      return Published;
    }

    /** Newest first, each row once, and the first one marked current. */
    method FeeHistory(coordinator: string) returns (views: seq<View>)
      requires Inv(rows)
      ensures views == Views(History(rows, coordinator))
      ensures forall i, j | 0 <= i < j < |views| :: views[i].declaration.seqNo > views[j].declaration.seqNo
    {
      views := [];
      assert Backwards(views, History(rows[..0], coordinator));
      hide *;
      for i := 0 to |rows|
        invariant Backwards(views, History(rows[..i], coordinator))
      {
        BackwardsNext(rows, i, coordinator, views);
        if rows[i].coordinator == coordinator {
          views := [View(rows[i], false)] + views;
        }
      }
      BackwardsMarked(views, rows, coordinator);
      if |views| > 0 {
        views := views[0 := views[0].(isCurrent := true)];
      }
      ViewsDescend(rows, coordinator);
    }

    method NextSeq(coordinator: string) returns (next: uint64)
      requires Inv(rows)
      ensures next == NextNumber(History(rows, coordinator))
      ensures forall d | d in rows && d.coordinator == coordinator :: d.seqNo < next
    {
      var current := CurrentFeeDeclaration(coordinator);
      if History(rows, coordinator) != [] {
        HistoryMembers(rows, coordinator, Last(History(rows, coordinator)));
      }
      if current.None? {
        return 0;
      }
      return current.value.seqNo + 1;
    }
  }

  lemma HighestIsLast(rows: seq<Declaration>, coordinator: string, current: Option<Declaration>)
    requires Inv(rows)
    requires current.None? <==> forall d | d in rows :: d.coordinator != coordinator
    requires current.Some? ==> current.value in rows && current.value.coordinator == coordinator
    requires forall d | d in rows && d.coordinator == coordinator :: current.Some? && d.seqNo <= current.value.seqNo
    ensures current == if History(rows, coordinator) == [] then None else Some(Last(History(rows, coordinator)))
  {
    hide History;
    var h := History(rows, coordinator);
    assert Increasing(h);
    if h != [] {
      HistoryMembers(rows, coordinator, Last(h));
    }
    if current.Some? {
      HistoryMembers(rows, coordinator, current.value);
      var i :| 0 <= i < |h| && h[i] == current.value;
    }
  }
}
