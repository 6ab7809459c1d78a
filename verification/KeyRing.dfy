/**
 The key rows of one operator: usage counting with lazy expiry above a floor, signed
 rotation, and the key map that authentication is allowed to see.
 */
module KeyRing {
  import opened Wrappers

  const KEY_INDEX_COUNT: nat := 7
  const MIN_ACTIVE_KEYS: nat := 3

  datatype KeyState = Active | Expired | Retired | Revoked

  datatype KeyRow = KeyRow(index: int, pub: seq<bv8>, algo: string, state: KeyState, usage: nat, threshold: nat)

  datatype KeyRecord = KeyRecord(pub: seq<bv8>, algo: string)

  predicate ActiveAt(row: KeyRow, idx: int) {
    row.state.Active? && row.index == idx
  }

  // ---------------------------------------------------------------------------
  // Totals over the rows
  // ---------------------------------------------------------------------------

  function Sum(rows: seq<KeyRow>, f: KeyRow -> nat): nat {
    if rows == [] then 0 else Sum(rows[..|rows| - 1], f) + f(rows[|rows| - 1])
  }

  function One(row: KeyRow): nat { if row.state.Active? then 1 else 0 }

  function Usage(row: KeyRow): nat { row.usage }

  function ActiveCount(rows: seq<KeyRow>): nat { Sum(rows, One) }

  function TotalUsage(rows: seq<KeyRow>): nat { Sum(rows, Usage) }

  lemma {:induction false} SumUpdate(rows: seq<KeyRow>, f: KeyRow -> nat, p: nat, row: KeyRow)
    requires p < |rows|
    ensures Sum(rows[p := row], f) == Sum(rows, f) - f(rows[p]) + f(row)
  {
    var n := |rows| - 1;
    if p < n {
      SumUpdate(rows[..n], f, p, row);
      assert rows[p := row][..n] == rows[..n][p := row];
    } else {
      assert rows[p := row][..n] == rows[..n];
    }
  }

  lemma {:induction false} SumPart(rows: seq<KeyRow>, f: KeyRow -> nat, p: nat)
    requires p < |rows|
    ensures f(rows[p]) <= Sum(rows, f)
  {
    var n := |rows| - 1;
    if p < n {
      SumPart(rows[..n], f, p);
    }
  }

  /** The rows the partial unique index admits: one active key per index, indices in range. */
  ghost predicate Indexed(rows: seq<KeyRow>) {
    && (forall p | 0 <= p < |rows| :: 0 <= rows[p].index < KEY_INDEX_COUNT && rows[p].threshold > 0)
    && (forall p, q | 0 <= p < q < |rows| && rows[p].state.Active? && rows[q].state.Active? ::
          rows[p].index != rows[q].index)
  }

  // ---------------------------------------------------------------------------
  // Usage and lazy expiry
  // ---------------------------------------------------------------------------

  /** The first active row at an index, or the number of rows when there is none. */
  function Find(rows: seq<KeyRow>, idx: int): (p: nat)
    ensures p <= |rows|
    ensures p < |rows| ==> ActiveAt(rows[p], idx)
    ensures forall q | 0 <= q < p :: !ActiveAt(rows[q], idx)
  {
    if rows == [] then 0
    else if ActiveAt(rows[0], idx) then 0
    else 1 + Find(rows[1..], idx)
  }

  datatype Used = Used(rows: seq<KeyRow>, swap: bool, active: int)

  /** One iteration of the usage loop; `active` is the count cached before the loop. */
  function UseOne(rows: seq<KeyRow>, idx: int, active: int, floor: int): Used {
    var p := Find(rows, idx);
    if p == |rows| then Used(rows, false, active)
    else
      var row := rows[p].(usage := rows[p].usage + 1);
      if row.usage < row.threshold then Used(rows[p := row], false, active)
      else if active > floor then Used(rows[p := row.(state := Expired)], true, active - 1)
      else Used(rows[p := row], true, active)
  }

  function RecordUsage(rows: seq<KeyRow>, idx0: int, idx1: int, floor: int): Used {
    var first := UseOne(rows, idx0, ActiveCount(rows), floor);
    var second := UseOne(first.rows, idx1, first.active, floor);
    second.(swap := first.swap || second.swap)
  }

  /** What one counted use may do to a row. */
  predicate UsedOnce(before: KeyRow, after: KeyRow) {
    && after == before.(usage := before.usage + 1, state := after.state)
    && (after.state.Active? || (after.state.Expired? && after.usage >= after.threshold))
  }

  predicate Signs(row: KeyRow, used: set<int>) {
    row.state.Active? && row.index in used
  }

  /** The row signed and is now at or over its threshold. */
  predicate Crossed(before: KeyRow, after: KeyRow, used: set<int>) {
    Signs(before, used) && after.usage >= before.threshold
  }

  /** The signing rows count one use each and no other row changes. */
  ghost predicate Counted(rows: seq<KeyRow>, rows': seq<KeyRow>, used: set<int>) {
    && |rows'| == |rows|
    && forall p | 0 <= p < |rows| :: if Signs(rows[p], used) then UsedOnce(rows[p], rows'[p]) else rows'[p] == rows[p]
  }

  ghost predicate SomeCrossed(rows: seq<KeyRow>, rows': seq<KeyRow>, used: set<int>)
    requires |rows| == |rows'|
  {
    exists p :: 0 <= p < |rows| && Crossed(rows[p], rows'[p], used)
  }

  /** A crossed key is kept active only because the operator is down to the floor. */
  ghost predicate KeptOnlyAtFloor(rows: seq<KeyRow>, rows': seq<KeyRow>, used: set<int>, floor: int)
    requires |rows| == |rows'|
  {
    forall p | 0 <= p < |rows| && Crossed(rows[p], rows'[p], used) :: rows'[p].state.Active? ==> ActiveCount(rows') <= floor
  }

  /** A row may change in any way that does not make it active or move it. */
  ghost predicate Narrowed(rows: seq<KeyRow>, rows': seq<KeyRow>) {
    && |rows'| == |rows|
    && forall p | 0 <= p < |rows| ::
         && rows'[p].index == rows[p].index && rows'[p].threshold == rows[p].threshold
         && (rows'[p].state.Active? ==> rows[p].state.Active?)
  }

  lemma NarrowedIndexed(rows: seq<KeyRow>, rows': seq<KeyRow>)
    requires Indexed(rows) && Narrowed(rows, rows')
    ensures Indexed(rows')
  {
  }

  lemma UseOneRows(rows: seq<KeyRow>, idx: int, floor: int)
    requires Indexed(rows)
    ensures var r := UseOne(rows, idx, ActiveCount(rows), floor);
            && Counted(rows, r.rows, {idx}) && Indexed(r.rows)
            && (r.swap <==> SomeCrossed(rows, r.rows, {idx}))
  {
    var r := UseOne(rows, idx, ActiveCount(rows), floor);
    assert Counted(rows, r.rows, {idx});
    NarrowedIndexed(rows, r.rows);
    if r.swap {
      var p := Find(rows, idx);
      assert Crossed(rows[p], r.rows[p], {idx});
    }
  }

  lemma UseOneEffect(rows: seq<KeyRow>, idx: int, floor: int)
    requires Indexed(rows)
    ensures var r := UseOne(rows, idx, ActiveCount(rows), floor);
            && Counted(rows, r.rows, {idx}) && Indexed(r.rows)
            && (r.swap <==> SomeCrossed(rows, r.rows, {idx}))
            && r.active == ActiveCount(r.rows)
            && (r.active == ActiveCount(rows) || r.active == ActiveCount(rows) - 1 >= floor)
            && KeptOnlyAtFloor(rows, r.rows, {idx}, floor)
            && TotalUsage(r.rows) == TotalUsage(rows) + if Find(rows, idx) < |rows| then 1 else 0
  {
    UseOneRows(rows, idx, floor);
    var p := Find(rows, idx);
    var r := UseOne(rows, idx, ActiveCount(rows), floor);
    if p < |rows| {
      SumUpdate(rows, One, p, r.rows[p]);
      SumUpdate(rows, Usage, p, r.rows[p]);
      SumPart(rows, One, p);
    }
  }

  lemma CountedTwice(rows: seq<KeyRow>, mid: seq<KeyRow>, rows': seq<KeyRow>, i: int, j: int)
    requires i != j && Counted(rows, mid, {i}) && Counted(mid, rows', {j})
    ensures Counted(rows, rows', {i, j})
    ensures forall p | 0 <= p < |rows| ::
              Crossed(rows[p], rows'[p], {i, j}) <==> Crossed(rows[p], mid[p], {i}) || Crossed(mid[p], rows'[p], {j})
  {
  }

  lemma FindCounted(rows: seq<KeyRow>, mid: seq<KeyRow>, i: int, j: int)
    requires i != j && Counted(rows, mid, {i})
    ensures Find(mid, j) == Find(rows, j)
  {
    assert forall p | 0 <= p < |rows| :: ActiveAt(mid[p], j) <==> ActiveAt(rows[p], j);
  }

  /**
   Two distinct signers each count once and nothing else changes; a key expires only at its
   threshold and never below the floor; a signer at its threshold stays active only at the
   floor; and the total usage grows by the number of signers that are still active.
   */
  lemma RecordUsageEffect(rows: seq<KeyRow>, i: int, j: int, floor: int)
    requires Indexed(rows) && i != j
    ensures var r := RecordUsage(rows, i, j, floor);
            && Counted(rows, r.rows, {i, j}) && Indexed(r.rows)
            && r.active == ActiveCount(r.rows)
            && (r.swap <==> SomeCrossed(rows, r.rows, {i, j}))
            && (ActiveCount(rows) >= floor ==> ActiveCount(r.rows) >= floor)
            && ActiveCount(r.rows) <= ActiveCount(rows)
            && KeptOnlyAtFloor(rows, r.rows, {i, j}, floor)
            && TotalUsage(r.rows) == TotalUsage(rows) + (if Find(rows, i) < |rows| then 1 else 0)
                                                      + (if Find(rows, j) < |rows| then 1 else 0)
  {
    hide UseOne, Indexed, ActiveCount, TotalUsage, Find;
    var mid := UseOne(rows, i, ActiveCount(rows), floor).rows;
    UseOneEffect(rows, i, floor);
    UseOneEffect(mid, j, floor);
    CountedTwice(rows, mid, RecordUsage(rows, i, j, floor).rows, i, j);
    FindCounted(rows, mid, i, j);
  }

  // ---------------------------------------------------------------------------
  // Signed rotation
  // ---------------------------------------------------------------------------

  /** The fields of a rotation that the protocol's check constrains; `signed` is the answer of its two signature checks. */
  datatype Rotation = Rotation(keyIndex: int, newPub: seq<bv8>, algo: string, idx0: int, idx1: int, signed: bool)

  /** The protocol promises this of every rotation it verifies against a key map. */
  predicate RotationVerified(rot: Rotation, km: map<int, KeyRecord>) {
    && rot.idx0 != rot.idx1
    && rot.idx0 in km && rot.idx1 in km
    && 0 <= rot.keyIndex < KEY_INDEX_COUNT
    && km[rot.idx0].algo == rot.algo == km[rot.idx1].algo
    && rot.newPub !in (set i | i in km :: km[i].pub)
    && rot.signed
  }

  /** The active rows as a map, with no gate on the operator's state. */
  function ActiveMap(rows: seq<KeyRow>): (km: map<int, KeyRecord>)
    ensures forall i :: i in km <==> exists p :: 0 <= p < |rows| && ActiveAt(rows[p], i)
    ensures forall i | i in km :: exists p :: 0 <= p < |rows| && ActiveAt(rows[p], i) && km[i] == KeyRecord(rows[p].pub, rows[p].algo)
  {
    if rows == [] then map[]
    else
      var n := |rows| - 1;
      var km := ActiveMap(rows[..n]);
      assert forall p | 0 <= p < n :: rows[..n][p] == rows[p];
      if rows[n].state.Active? then km[rows[n].index := KeyRecord(rows[n].pub, rows[n].algo)] else km
  }

  lemma FindInMap(rows: seq<KeyRow>, idx: int)
    ensures idx in ActiveMap(rows) <==> Find(rows, idx) < |rows|
  {
  }

  function RetireAt(rows: seq<KeyRow>, idx: int): seq<KeyRow> {
    var p := Find(rows, idx);
    if p == |rows| then rows else rows[p := rows[p].(state := Retired)]
  }

  function Rotate(rows: seq<KeyRow>, rot: Rotation, threshold: int): Option<seq<KeyRow>> {
    if threshold <= 0 || !RotationVerified(rot, ActiveMap(rows)) then None
    else Some(RetireAt(rows, rot.keyIndex) + [KeyRow(rot.keyIndex, rot.newPub, rot.algo, Active, 0, threshold)])
  }

  ghost predicate OneAlgo(rows: seq<KeyRow>, algo: string) {
    forall p | 0 <= p < |rows| && rows[p].state.Active? :: rows[p].algo == algo
  }

  lemma RetireEffect(rows: seq<KeyRow>, idx: int)
    requires Indexed(rows)
    ensures var rows' := RetireAt(rows, idx);
            && Indexed(rows') && |rows'| == |rows|
            && (forall p | 0 <= p < |rows| ::
                  rows'[p] == if ActiveAt(rows[p], idx) then rows[p].(state := Retired) else rows[p])
            && TotalUsage(rows') == TotalUsage(rows)
            && ActiveCount(rows') == ActiveCount(rows) - if Find(rows, idx) < |rows| then 1 else 0
  {
    var p := Find(rows, idx);
    if p < |rows| {
      var row := rows[p].(state := Retired);
      SumUpdate(rows, One, p, row);
      SumUpdate(rows, Usage, p, row);
    }
  }

  lemma AppendEffect(rows: seq<KeyRow>, row: KeyRow)
    requires Indexed(rows) && 0 <= row.index < KEY_INDEX_COUNT && row.threshold > 0 && row.state.Active?
    requires forall p | 0 <= p < |rows| :: !ActiveAt(rows[p], row.index)
    ensures var rows' := rows + [row];
            Indexed(rows') && ActiveCount(rows') == ActiveCount(rows) + 1 && TotalUsage(rows') == TotalUsage(rows) + row.usage
  {
    assert (rows + [row])[..|rows|] == rows;
  }

  /** Retiring the active key at an index and adding an unused one there. */
  ghost predicate Swapped(rows: seq<KeyRow>, rows': seq<KeyRow>, row: KeyRow) {
    && |rows'| == |rows| + 1
    && rows'[|rows|] == row
    && (forall p | 0 <= p < |rows| :: rows'[p] == if ActiveAt(rows[p], row.index) then rows[p].(state := Retired) else rows[p])
    && TotalUsage(rows') == TotalUsage(rows) + row.usage
    && ActiveCount(rows') == ActiveCount(rows) + if Find(rows, row.index) < |rows| then 0 else 1
  }

  lemma SwapEffect(rows: seq<KeyRow>, row: KeyRow)
    requires Indexed(rows) && OneAlgo(rows, row.algo)
    requires 0 <= row.index < KEY_INDEX_COUNT && row.threshold > 0 && row.state.Active?
    ensures var rows' := RetireAt(rows, row.index) + [row];
            Indexed(rows') && OneAlgo(rows', row.algo) && Swapped(rows, rows', row)
  {
    RetireEffect(rows, row.index);
    AppendEffect(RetireAt(rows, row.index), row);
  }

  lemma CountedOneAlgo(rows: seq<KeyRow>, rows': seq<KeyRow>, used: set<int>, algo: string)
    requires Counted(rows, rows', used) && OneAlgo(rows, algo)
    ensures OneAlgo(rows', algo)
  {
  }

  /**
   A verified rotation retires at most the one active key at its index, adds the new key
   unused, keeps every other row and the recorded usage, and never lowers the active count.
   */
  lemma RotateEffect(rows: seq<KeyRow>, rot: Rotation, threshold: int, algo: string)
    requires Indexed(rows) && OneAlgo(rows, algo) && Rotate(rows, rot, threshold).Some?
    ensures var rows' := Rotate(rows, rot, threshold).value;
            && Indexed(rows') && OneAlgo(rows', algo)
            && Swapped(rows, rows', KeyRow(rot.keyIndex, rot.newPub, algo, Active, 0, threshold))
  {
    SignerAlgo(rows, rot.idx0, algo);
    SwapEffect(rows, KeyRow(rot.keyIndex, rot.newPub, algo, Active, 0, threshold));
  }

  /** The rows hold an active key of this algorithm at the index. */
  ghost predicate HoldsKey(rows: seq<KeyRow>, idx: int, algo: string) {
    exists p :: 0 <= p < |rows| && rows[p].state.Active? && rows[p].index == idx && rows[p].algo == algo
  }

  lemma HoldsKeyInMap(rows: seq<KeyRow>, idx: int, algo: string)
    requires Indexed(rows)
    ensures HoldsKey(rows, idx, algo) <==> idx in ActiveMap(rows) && ActiveMap(rows)[idx].algo == algo
  {
    if idx in ActiveMap(rows) {
      var p :| 0 <= p < |rows| && ActiveAt(rows[p], idx) && ActiveMap(rows)[idx] == KeyRecord(rows[p].pub, rows[p].algo);
      if HoldsKey(rows, idx, algo) {
        var q :| 0 <= q < |rows| && rows[q].state.Active? && rows[q].index == idx && rows[q].algo == algo;
        assert p == q;
      }
    }
    if HoldsKey(rows, idx, algo) {
      var q :| 0 <= q < |rows| && rows[q].state.Active? && rows[q].index == idx && rows[q].algo == algo;
      assert ActiveAt(rows[q], idx);
    }
  }

  lemma MapEntryOf(rows: seq<KeyRow>, p: nat)
    requires Indexed(rows) && p < |rows| && rows[p].state.Active?
    ensures rows[p].index in ActiveMap(rows) && ActiveMap(rows)[rows[p].index].pub == rows[p].pub
  {
    hide ActiveMap;
    var km, i := ActiveMap(rows), rows[p].index;
    assert ActiveAt(rows[p], i);
    var q :| 0 <= q < |rows| && ActiveAt(rows[q], i) && km[i] == KeyRecord(rows[q].pub, rows[q].algo);
    assert p == q;
  }

  lemma RowOfEntry(rows: seq<KeyRow>, i: int) returns (p: nat)
    requires i in ActiveMap(rows)
    ensures p < |rows| && rows[p].state.Active? && rows[p].pub == ActiveMap(rows)[i].pub
  {
    hide ActiveMap;
    p :| p < |rows| && ActiveAt(rows[p], i) && ActiveMap(rows)[i] == KeyRecord(rows[p].pub, rows[p].algo);
  }

  /** The rows hold this key, active. */
  ghost predicate HeldKey(rows: seq<KeyRow>, pub: seq<bv8>) {
    exists p :: 0 <= p < |rows| && rows[p].state.Active? && rows[p].pub == pub
  }

  lemma HeldKeyInMap(rows: seq<KeyRow>, pub: seq<bv8>)
    requires Indexed(rows)
    ensures HeldKey(rows, pub) <==> pub in (set i | i in ActiveMap(rows) :: ActiveMap(rows)[i].pub)
  {
    hide ActiveMap, Indexed;
    if HeldKey(rows, pub) {
      var p :| 0 <= p < |rows| && rows[p].state.Active? && rows[p].pub == pub;
      MapEntryOf(rows, p);
    }
    if i :| i in ActiveMap(rows) && ActiveMap(rows)[i].pub == pub {
      var p := RowOfEntry(rows, i);
    }
  }

  /** A rotation succeeds exactly when two different active keys of its algorithm signed it and it brings a key not yet active. */
  lemma RotatesExactlyWhen(rows: seq<KeyRow>, rot: Rotation, threshold: int)
    requires Indexed(rows)
    ensures Rotate(rows, rot, threshold).Some? <==>
            && threshold > 0 && rot.signed && 0 <= rot.keyIndex < 7
            && rot.idx0 != rot.idx1 && HoldsKey(rows, rot.idx0, rot.algo) && HoldsKey(rows, rot.idx1, rot.algo)
            && !HeldKey(rows, rot.newPub)
  {
    hide HoldsKey;
    HoldsKeyInMap(rows, rot.idx0, rot.algo);
    HoldsKeyInMap(rows, rot.idx1, rot.algo);
    HeldKeyInMap(rows, rot.newPub);
  }

  lemma SignerAlgo(rows: seq<KeyRow>, idx: int, algo: string)
    requires OneAlgo(rows, algo) && idx in ActiveMap(rows)
    ensures ActiveMap(rows)[idx].algo == algo
  {
  }

  lemma {:induction false} CountAtMost(rows: seq<KeyRow>, indices: set<int>)
    requires Indexed(rows)
    requires forall p | 0 <= p < |rows| && rows[p].state.Active? :: rows[p].index in indices
    ensures ActiveCount(rows) <= |indices|
  {
    if rows != [] {
      var n := |rows| - 1;
      if rows[n].state.Active? {
        CountAtMost(rows[..n], indices - {rows[n].index});
      } else {
        CountAtMost(rows[..n], indices);
      }
    }
  }

  /** One active key per index in range leaves room for at most seven. */
  lemma AtMostSeven(rows: seq<KeyRow>)
    requires Indexed(rows)
    ensures ActiveCount(rows) <= KEY_INDEX_COUNT
  {
    var indices := {0, 1, 2, 3, 4, 5, 6};
    assert |indices| == 7;
    CountAtMost(rows, indices);
  }

  // ---------------------------------------------------------------------------
  // The key map authentication sees
  // ---------------------------------------------------------------------------

  datatype Scan = Scan(km: map<int, KeyRecord>, pin: string)

  /** The scan of the first n rows; None when two active keys disagree on the pinned algorithm. */
  function ScanKeys(rows: seq<KeyRow>, n: nat): Option<Scan>
    requires n <= |rows|
  {
    if n == 0 then Some(Scan(map[], ""))
    else
      match ScanKeys(rows, n - 1)
      case None => None
      case Some(s) =>
        var row := rows[n - 1];
        if !row.state.Active? then Some(s)
        else if s.pin != "" && row.algo != s.pin then None
        else Some(Scan(s.km[row.index := KeyRecord(row.pub, row.algo)], if s.pin == "" then row.algo else s.pin))
  }

  /** The active keys, or None when authentication must see nothing. */
  function KeyMap(rows: seq<KeyRow>): Option<map<int, KeyRecord>> {
    match ScanKeys(rows, |rows|)
    case None => None
    case Some(s) => if s.km == map[] then None else Some(s.km)
  }

  lemma {:induction false} ScanOneAlgo(rows: seq<KeyRow>, n: nat, algo: string)
    requires n <= |rows| && OneAlgo(rows, algo)
    ensures ScanKeys(rows, n).Some?
    ensures var s := ScanKeys(rows, n).value;
            && (s.pin == algo || s.pin == "")
            && s.km == ActiveMap(rows[..n])
  {
    if n > 0 {
      ScanOneAlgo(rows, n - 1, algo);
      assert rows[..n][..n - 1] == rows[..n - 1];
    }
  }

  /** With one algorithm the key map is exactly the active rows, and empty only if there are none. */
  lemma KeyMapOfOneAlgo(rows: seq<KeyRow>, algo: string)
    requires OneAlgo(rows, algo)
    ensures ActiveCount(rows) > 0 ==> KeyMap(rows) == Some(ActiveMap(rows))
    ensures ActiveCount(rows) == 0 ==> KeyMap(rows) == None
  {
    ScanOneAlgo(rows, |rows|, algo);
    assert rows[..|rows|] == rows;
    SomeActive(rows);
    if ActiveCount(rows) > 0 {
      var p :| 0 <= p < |rows| && rows[p].state.Active?;
      assert ActiveAt(rows[p], rows[p].index);
      assert rows[p].index in ActiveMap(rows);
    }
  }

  lemma {:induction false} SomeActive(rows: seq<KeyRow>)
    ensures ActiveCount(rows) > 0 <==> exists p :: 0 <= p < |rows| && rows[p].state.Active?
  {
    if rows != [] {
      var n := |rows| - 1;
      SomeActive(rows[..n]);
      if p :| 0 <= p < n && rows[..n][p].state.Active? {
        assert rows[p].state.Active?;
      }
      if p :| 0 <= p < n && rows[p].state.Active? {
        assert rows[..n][p].state.Active?;
      }
    }
  }

  lemma {:induction false} ScanAgrees(rows: seq<KeyRow>, n: nat)
    requires n <= |rows| && ScanKeys(rows, n).Some?
    requires forall p | 0 <= p < n && rows[p].state.Active? :: rows[p].algo != ""
    ensures forall p | 0 <= p < n && rows[p].state.Active? :: rows[p].algo == ScanKeys(rows, n).value.pin != ""
  {
    if n > 0 {
      ScanAgrees(rows, n - 1);
    }
  }

  /** The pin: the active keys of a key map that is handed out name one algorithm exactly when all or none of the names are empty. */
  lemma KeyMapPinsAlgoExactlyWhen(rows: seq<KeyRow>)
    requires KeyMap(rows).Some?
    ensures (exists algo :: OneAlgo(rows, algo)) <==>
            || OneAlgo(rows, "")
            || (forall p | 0 <= p < |rows| && rows[p].state.Active? :: rows[p].algo != "")
  {
    if forall p | 0 <= p < |rows| && rows[p].state.Active? :: rows[p].algo != "" {
      ScanAgrees(rows, |rows|);
      assert OneAlgo(rows, ScanKeys(rows, |rows|).value.pin);
    }
  }

  // ---------------------------------------------------------------------------
  // The stored rows, updated in place
  // ---------------------------------------------------------------------------

  class KeyTable {
    var rows: seq<KeyRow>

    constructor (initial: seq<KeyRow>)
      ensures rows == initial
    {
      rows := initial;
    }

    method CountActive() returns (n: nat)
      ensures n == ActiveCount(rows)
    {
      n := 0;
      for i := 0 to |rows|
        invariant n == ActiveCount(rows[..i])
      {
        assert rows[..i + 1][..i] == rows[..i];
        if rows[i].state.Active? {
          n := n + 1;
        }
      }
      assert rows[..|rows|] == rows;
    }

    method FindActive(idx: int) returns (p: nat)
      ensures p == Find(rows, idx)
    {
      p := 0;
      while p < |rows| && !ActiveAt(rows[p], idx)
        invariant p <= |rows| && Find(rows, idx) == p + Find(rows[p..], idx)
      {
        assert rows[p..][1..] == rows[p + 1..];
        p := p + 1;
      }
    }

    /** Counts both signers and expires what reached its threshold while the floor permits. */
    method RecordUsageAndExpire(idx0: int, idx1: int) returns (swapRequired: bool)
      modifies this
      ensures var r := RecordUsage(old(rows), idx0, idx1, MIN_ACTIVE_KEYS); rows == r.rows && swapRequired == r.swap
    {
      var activeCount: int := CountActive();
      swapRequired := false;
      var indices := [idx0, idx1];
      var done := Used(rows, false, activeCount);
      for k := 0 to 2
        invariant done == Used(rows, swapRequired, activeCount)
        invariant k == 0 ==> done == Used(old(rows), false, ActiveCount(old(rows)))
        invariant k == 1 ==> done == UseOne(old(rows), idx0, ActiveCount(old(rows)), MIN_ACTIVE_KEYS)
        invariant k == 2 ==> done == RecordUsage(old(rows), idx0, idx1, MIN_ACTIVE_KEYS)
      {
        var p := FindActive(indices[k]);
        if p < |rows| {
          rows := rows[p := rows[p].(usage := rows[p].usage + 1)];
          if rows[p].usage >= rows[p].threshold {
            swapRequired := true;
            if activeCount > MIN_ACTIVE_KEYS {
              rows := rows[p := rows[p].(state := Expired)];
              activeCount := activeCount - 1;
            }
          }
        }
        done := Used(rows, swapRequired, activeCount);
      }
    }

    /** Verifies against the current keys first, then swaps in the new key. */
    method RegisterReplacementKey(rot: Rotation, threshold: int) returns (ok: bool)
      modifies this
      ensures ok <==> Rotate(old(rows), rot, threshold).Some?
      ensures rows == if ok then Rotate(old(rows), rot, threshold).value else old(rows)
    {
      if threshold <= 0 {
        return false;
      }
      var km := ActiveMap(rows);
      if !RotationVerified(rot, km) {
        return false;
      }
      var p := FindActive(rot.keyIndex);
      if p < |rows| {
        rows := rows[p := rows[p].(state := Retired)];
      }
      rows := rows + [KeyRow(rot.keyIndex, rot.newPub, rot.algo, Active, 0, threshold)];
      ok := true;
    }

    /** The map of active keys; None tells the caller to authenticate nothing. */
    method GetActiveKeyMap(operatorActive: bool) returns (result: Option<map<int, KeyRecord>>)
      ensures result == if operatorActive then KeyMap(rows) else None
    {
      if !operatorActive {
        return None;
      }
      var km: map<int, KeyRecord> := map[];
      var pin := "";
      for i := 0 to |rows|
        invariant ScanKeys(rows, i) == Some(Scan(km, pin))
      {
        var row := rows[i];
        assert ScanKeys(rows, i + 1) == None ==> ScanKeys(rows, |rows|) == None by {
          ScanStuck(rows, i + 1, |rows|);
        }
        if row.state.Active? {
          if pin == "" {
            pin := row.algo;
          } else if row.algo != pin {
            return None;
          }
          km := km[row.index := KeyRecord(row.pub, row.algo)];
        }
      }
      result := if km == map[] then None else Some(km);
    }
  }

  lemma {:induction false} ScanStuck(rows: seq<KeyRow>, m: nat, n: nat)
    requires m <= n <= |rows|
    ensures ScanKeys(rows, m) == None ==> ScanKeys(rows, n) == None
  {
    if m < n {
      ScanStuck(rows, m, n - 1);
    }
  }
}
