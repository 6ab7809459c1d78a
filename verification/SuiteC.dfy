/**
 The conformance drill over five mock keys.  It replays the production expiry rule in a
 scratch array with a floor of two, pairing each key in turn with key 4.
 */
module SuiteC {
  import opened KeyRing

  const SUITE_C_FLOOR: nat := 2
  const SHIPPED_THRESHOLDS: seq<int> := [3, 6, 9, 12, 365]

  datatype MockKey = MockKey(threshold: int, usage: nat, active: bool)

  function ToRow(i: int, k: MockKey): KeyRow {
    KeyRow(i, [], "", if k.active then Active else Expired, k.usage, if k.threshold < 0 then 0 else k.threshold)
  }

  /** The mock keys seen as production key rows, one per index. */
  function Rows(keys: seq<MockKey>): (rows: seq<KeyRow>)
    ensures |rows| == |keys|
  {
    seq(|keys|, i requires 0 <= i < |keys| => ToRow(i, keys[i]))
  }

  function CountActive(keys: seq<MockKey>): nat {
    ActiveCount(Rows(keys))
  }

  lemma CountUpdate(keys: seq<MockKey>, p: nat, k: MockKey)
    requires p < |keys|
    ensures CountActive(keys[p := k]) == CountActive(keys) - (if keys[p].active then 1 else 0) + (if k.active then 1 else 0)
  {
    assert Rows(keys[p := k]) == Rows(keys)[p := ToRow(p, k)];
    SumUpdate(Rows(keys), One, p, ToRow(p, k));
  }

  datatype Drilled = Drilled(keys: seq<MockKey>, swap: bool)

  function RecordOne(keys: seq<MockKey>, idx: nat): Drilled
    requires idx < |keys|
  {
    if !keys[idx].active then Drilled(keys, false)
    else
      var used := keys[idx := keys[idx].(usage := keys[idx].usage + 1)];
      if used[idx].usage < used[idx].threshold then Drilled(used, false)
      else if CountActive(used) > SUITE_C_FLOOR then Drilled(used[idx := used[idx].(active := false)], true)
      else Drilled(used, true)
  }

  function Record(keys: seq<MockKey>, i0: nat, i1: nat): Drilled
    requires i0 < |keys| && i1 < |keys|
  {
    var first := RecordOne(keys, i0);
    var second := RecordOne(first.keys, i1);
    second.(swap := first.swap || second.swap)
  }

  lemma RecordOneIsProduction(keys: seq<MockKey>, idx: nat)
    requires idx < |keys|
    ensures var d := RecordOne(keys, idx);
            UseOne(Rows(keys), idx, CountActive(keys), SUITE_C_FLOOR) == Used(Rows(d.keys), d.swap, CountActive(d.keys))
  {
    var rows := Rows(keys);
    if keys[idx].active {
      assert ActiveAt(rows[idx], idx);
      assert Find(rows, idx) == idx;
      var used := keys[idx].(usage := keys[idx].usage + 1);
      assert Rows(keys[idx := used]) == rows[idx := ToRow(idx, used)];
      CountUpdate(keys, idx, used);
      var gone := used.(active := false);
      assert keys[idx := used][idx := gone] == keys[idx := gone];
      assert Rows(keys[idx := gone]) == rows[idx := ToRow(idx, gone)];
      CountUpdate(keys, idx, gone);
    } else {
      assert Find(rows, idx) == |rows|;
    }
  }

  /** Recounting the active keys at each step gives the very rows the production loop gives with its cached count. */
  lemma RecordIsProduction(keys: seq<MockKey>, i0: nat, i1: nat)
    requires i0 < |keys| && i1 < |keys|
    ensures var d := Record(keys, i0, i1);
            var r := RecordUsage(Rows(keys), i0, i1, SUITE_C_FLOOR);
            r.rows == Rows(d.keys) && r.swap == d.swap
  {
    RecordOneIsProduction(keys, i0);
    RecordOneIsProduction(RecordOne(keys, i0).keys, i1);
  }

  // ---------------------------------------------------------------------------
  // The drill
  // ---------------------------------------------------------------------------

  method CountActiveKeys(keys: array<MockKey>) returns (n: nat)
    ensures n == CountActive(keys[..])
  {
    n := 0;
    for i := 0 to keys.Length
      invariant n == CountActive(keys[..i])
    {
      assert Rows(keys[..i + 1])[..i] == Rows(keys[..i]);
      if keys[i].active {
        n := n + 1;
      }
    }
    assert keys[..keys.Length] == keys[..];
  }

  method RecordInPlace(keys: array<MockKey>, i0: nat, i1: nat) returns (swap: bool)
    requires i0 < keys.Length && i1 < keys.Length
    modifies keys
    ensures Drilled(keys[..], swap) == Record(old(keys[..]), i0, i1)
  {
    swap := false;
    var indices := [i0, i1];
    for n := 0 to 2
      invariant n == 0 ==> keys[..] == old(keys[..]) && !swap
      invariant n == 1 ==> Drilled(keys[..], swap) == RecordOne(old(keys[..]), i0)
      invariant n == 2 ==> Drilled(keys[..], swap) == Record(old(keys[..]), i0, i1)
    {
      var idx := indices[n];
      ghost var before := keys[..];
      if keys[idx].active {
        keys[idx] := keys[idx].(usage := keys[idx].usage + 1);
        ghost var used := keys[..];
        assert used == before[idx := before[idx].(usage := before[idx].usage + 1)];
        if keys[idx].usage >= keys[idx].threshold {
          swap := true;
          var active := CountActiveKeys(keys);
          if active > SUITE_C_FLOOR {
            keys[idx] := keys[idx].(active := false);
            assert keys[..] == used[idx := used[idx].(active := false)];
          }
        }
      }
      assert keys[..] == RecordOne(before, idx).keys;
    }
  }

  /** The keys when key k has been driven to its threshold together with key 4. */
  function Driven(keys: seq<MockKey>, k: nat): seq<MockKey>
    requires |keys| == 5 && k < 4
  {
    var n := CountActive(keys);
    var left := if n > SUITE_C_FLOOR then n - 1 else n;
    var partner := keys[4].(usage := keys[4].usage + if keys[k].threshold < 0 then 0 else keys[k].threshold);
    keys[k := MockKey(keys[k].threshold, if keys[k].threshold < 0 then 0 else keys[k].threshold, n <= SUITE_C_FLOOR)]
        [4 := if !keys[4].active then keys[4]
              else if partner.usage >= partner.threshold && left > SUITE_C_FLOOR then partner.(active := false)
              else partner]
  }

  lemma RecordEarly(keys: seq<MockKey>, k: nat)
    requires |keys| == 5 && k < 4 && keys[k].active && keys[k].usage + 1 < keys[k].threshold
    ensures var d := Record(keys, k, 4);
            && (d.swap <==> keys[4].active && keys[4].usage + 1 >= keys[4].threshold)
            && (!d.swap ==> d.keys == keys[k := keys[k].(usage := keys[k].usage + 1)]
                                          [4 := if keys[4].active then keys[4].(usage := keys[4].usage + 1) else keys[4]])
            && (!d.swap ==> CountActive(d.keys) == CountActive(keys))
  {
    var first := RecordOne(keys, k);
    CountUpdate(keys, k, first.keys[k]);
    CountUpdate(first.keys, 4, RecordOne(first.keys, 4).keys[4]);
  }

  lemma RecordCrossing(keys: seq<MockKey>, k: nat)
    requires |keys| == 5 && k < 4 && keys[k].active && keys[k].usage + 1 >= keys[k].threshold
    ensures var d := Record(keys, k, 4);
            var n := CountActive(keys);
            var left := if n > SUITE_C_FLOOR then n - 1 else n;
            var partner := keys[4].(usage := keys[4].usage + 1);
            && d.swap
            && d.keys == keys[k := MockKey(keys[k].threshold, keys[k].usage + 1, n <= SUITE_C_FLOOR)]
                             [4 := if !keys[4].active then keys[4]
                                   else if partner.usage >= partner.threshold && left > SUITE_C_FLOOR then partner.(active := false)
                                   else partner]
  {
    var used := keys[k].(usage := keys[k].usage + 1);
    CountUpdate(keys, k, used);
    CountUpdate(keys, k, used.(active := false));
    var first := RecordOne(keys, k).keys;
    assert keys[k := used][k := used.(active := false)] == keys[k := used.(active := false)];
    CountUpdate(first, 4, first[4].(usage := first[4].usage + 1));
  }

  /** Drives key k with key 4 until key k crosses, checking that a swap is asked for exactly then. */
  method DrivePhase(keys: array<MockKey>, k: nat) returns (ok: bool)
    requires keys.Length == 5 && k < 4
    requires keys[k].active && keys[k].usage == 0 && keys[k].threshold > 0
    modifies keys
    ensures ok <==> !old(keys[4].active) || old(keys[4].usage) + old(keys[k].threshold) <= old(keys[4].threshold)
                    || old(keys[k].threshold) == 1
    ensures ok ==> keys[..] == Driven(old(keys[..]), k)
  {
    ghost var start := keys[..];
    var threshold := keys[k].threshold;
    var use := 1;
    while use <= threshold
      invariant 1 <= use <= threshold + 1
      invariant use <= threshold ==>
        && keys[..] == start[k := start[k].(usage := use - 1)]
                            [4 := if start[4].active then start[4].(usage := start[4].usage + use - 1) else start[4]]
        && CountActive(keys[..]) == CountActive(start)
      invariant use > 1 && start[4].active ==> use == threshold + 1 == 2 || start[4].usage + threshold <= start[4].threshold
                                               || (use <= threshold && start[4].usage + use - 1 < start[4].threshold)
      invariant use == threshold + 1 ==> keys[..] == Driven(start, k)
    {
      ghost var before := keys[..];
      if use < threshold {
        RecordEarly(before, k);
      } else {
        RecordCrossing(before, k);
      }
      var swap := RecordInPlace(keys, k, 4);
      if swap != (use == threshold) {
        return false;
      }
      use := use + 1;
    }
    ok := true;
  }

  /** The whole drill: keys 0 to 2 must expire down to the floor, key 3 must be held at it. */
  method RunSuiteCScratch(thresholds: seq<int>) returns (passed: bool)
    requires |thresholds| == 5 && forall i | 0 <= i < 5 :: thresholds[i] > 0
    ensures var total := thresholds[0] + thresholds[1] + thresholds[2] + thresholds[3];
            passed <==> thresholds[4] >= total || (thresholds[3] == 1 && thresholds[4] == total - 1)
  {
    var keys := new MockKey[5](i requires 0 <= i < 5 => MockKey(thresholds[i], 0, true));
    ghost var start := keys[..];
    AllActive(start);
    var ok := DrivePhase(keys, 0);
    if !ok || keys[0].active { return false; }
    DrivenCount(start, 0);
    ghost var one := keys[..];
    ok := DrivePhase(keys, 1);
    if !ok || keys[1].active { return false; }
    DrivenCount(one, 1);
    ghost var two := keys[..];
    ok := DrivePhase(keys, 2);
    if !ok || keys[2].active { return false; }
    DrivenCount(two, 2);
    ghost var three := keys[..];
    var active := CountActiveKeys(keys);
    if active != SUITE_C_FLOOR { return false; }
    ok := DrivePhase(keys, 3);
    if !ok || !keys[3].active { return false; }
    DrivenCount(three, 3);
    active := CountActiveKeys(keys);
    passed := active == SUITE_C_FLOOR;
  }

  lemma {:induction false} AllActive(keys: seq<MockKey>)
    requires forall i | 0 <= i < |keys| :: keys[i].active
    ensures CountActive(keys) == |keys|
  {
    if keys != [] {
      var n := |keys| - 1;
      AllActive(keys[..n]);
      assert Rows(keys)[..n] == Rows(keys[..n]);
    }
  }

  lemma DrivenCount(keys: seq<MockKey>, k: nat)
    requires |keys| == 5 && k < 4 && keys[k].active
    ensures CountActive(Driven(keys, k)) ==
            CountActive(keys) - (if Driven(keys, k)[k].active then 0 else 1)
                              - (if keys[4].active && !Driven(keys, k)[4].active then 1 else 0)
  {
    var d := Driven(keys, k);
    CountUpdate(keys, k, d[k]);
    CountUpdate(keys[k := d[k]], 4, d[4]);
  }

  /** The shipped thresholds pass, since 365 exceeds 3 + 6 + 9 + 12. */
  method GradeShippedDrill() returns (passed: bool)
    ensures passed
  {
    passed := RunSuiteCScratch(SHIPPED_THRESHOLDS);
  }
}
