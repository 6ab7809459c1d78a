/**
 Supply sounding: the nodes' capacities folded into one snapshot per operator, node class and
 workload category.  Names are byte strings and are ordered bytewise.
 */
module Capacity {
  import opened ByteOrder
  import opened Placement
  import opened Sequences

  const UNKNOWN: Bytes := [117, 110, 107, 110, 111, 119, 110]

  datatype Input = Input(operator: Bytes, nodeClass: Bytes, vcpus: int, memMB: int, diskMB: int, optOut: OptOut)

  datatype Key = Key(operator: Bytes, nodeClass: Bytes, workload: Bytes)

  datatype Amounts = Amounts(nodes: int, vcpus: int, memMB: int, diskMB: int, printQPS: int)

  datatype Snapshot = Snapshot(key: Key, amounts: Amounts)

  /** compute, storage and print. */
  function Name(c: Category): Bytes {
    match c
    case Compute => [99, 111, 109, 112, 117, 116, 101]
    case Storage => [115, 116, 111, 114, 97, 103, 101]
    case Print => [112, 114, 105, 110, 116]
  }

  function OperatorOf(input: Input): Bytes {
    if input.operator == [] then UNKNOWN else input.operator
  }

  function KeyFor(input: Input, c: Category): Key {
    Key(OperatorOf(input), input.nodeClass, Name(c))
  }

  // ---------------------------------------------------------------------------
  // The sums by group
  // ---------------------------------------------------------------------------

  /** The node belongs to the group and serves its category; an operator without a name counts as unknown. */
  predicate Contributes(input: Input, k: Key) {
    exists c :: k == KeyFor(input, c) && Serves(input.optOut, c)
  }

  const ZERO: Amounts := Amounts(0, 0, 0, 0, 0)

  function Plus(a: Amounts, input: Input, printer: bool): Amounts {
    Amounts(a.nodes + 1, a.vcpus + input.vcpus, a.memMB + input.memMB, a.diskMB + input.diskMB,
            a.printQPS + if printer then 1 else 0)
  }

  function PlusIf(a: Amounts, input: Input, k: Key): Amounts {
    if Contributes(input, k) then Plus(a, input, k.workload == Name(Print)) else a
  }

  /** The group's sum over the contributing nodes. */
  function Total(inputs: seq<Input>, k: Key): Amounts {
    if inputs == [] then ZERO else PlusIf(Total(inputs[..|inputs| - 1], k), inputs[|inputs| - 1], k)
  }

  predicate Supplied(inputs: seq<Input>, k: Key) {
    exists i | 0 <= i < |inputs| :: Contributes(inputs[i], k)
  }

  /** The sum does not depend on the place of a node in the list. */
  lemma {:induction false} TotalWithout(inputs: seq<Input>, i: nat, k: Key)
    requires i < |inputs|
    ensures Total(inputs, k) == PlusIf(Total(Without(inputs, i), k), inputs[i], k)
  {
    hide Contributes;
    var n := |inputs| - 1;
    if i < n {
      TotalWithout(inputs[..n], i, k);
      var rest := Without(inputs, i);
      assert rest[..n - 1] == Without(inputs[..n], i) && rest[n - 1] == inputs[n];
    } else {
      assert Without(inputs, i) == inputs[..n];
    }
  }

  lemma {:induction false} TotalIgnoresOrder(a: seq<Input>, b: seq<Input>, k: Key)
    requires multiset(a) == multiset(b)
    ensures Total(a, k) == Total(b, k)
    decreases |a|
  {
    if a == [] {
      assert |multiset(b)| == 0;
    } else {
      assert a[0] in multiset(b);
      var i :| 0 <= i < |b| && b[i] == a[0];
      WithoutCount(a, 0);
      WithoutCount(b, i);
      Cancel(multiset(Without(a, 0)), multiset(Without(b, i)), a[0]);
      TotalIgnoresOrder(Without(a, 0), Without(b, i), k);
      TotalWithout(a, 0, k);
      TotalWithout(b, i, k);
    }
  }

  lemma SuppliedIgnoresOrder(a: seq<Input>, b: seq<Input>, k: Key)
    requires multiset(a) == multiset(b)
    ensures Supplied(a, k) ==> Supplied(b, k)
  {
    if Supplied(a, k) {
      var i :| 0 <= i < |a| && Contributes(a[i], k);
      assert a[i] in multiset(b);
      var j :| 0 <= j < |b| && b[j] == a[i];
    }
  }

  /** A node is counted for a category exactly when a request of that category with no other demand would match it. */
  lemma CountedAsMatched(n: Node, input: Input, workload: string)
    requires CategoryOf(workload).Some? && n.status == "online" && input.optOut == n.optOut
    requires n.hardware.cpuCores >= 0 && n.hardware.ramMB >= 0 && n.hardware.storageGB >= 0
    ensures Contributes(input, KeyFor(input, CategoryOf(workload).value)) <==>
            Matches(n, Request([], "", "", false, 0, 0, 0, workload))
  {
    var c := CategoryOf(workload).value;
    NamesDiffer();
    assert forall d | KeyFor(input, d) == KeyFor(input, c) :: d == c;
  }

  lemma NamesDiffer()
    ensures forall c, d :: Name(c) == Name(d) <==> c == d
  {
    assert Name(Compute)[0] == 99 && Name(Storage)[0] == 115 && Name(Print)[0] == 112;
  }

  /** A node counts for the group of its operator, or of "unknown" without one, of its class, and of each category it has not opted out of. */
  lemma ContributesExactlyWhen(input: Input, k: Key)
    ensures Contributes(input, k) <==>
            && k.operator == (if input.operator == [] then [117, 110, 107, 110, 111, 119, 110] else input.operator)
            && k.nodeClass == input.nodeClass
            && (|| (k.workload == [99, 111, 109, 112, 117, 116, 101] && !input.optOut.compute)
                || (k.workload == [115, 116, 111, 114, 97, 103, 101] && !input.optOut.storage)
                || (k.workload == [112, 114, 105, 110, 116] && !input.optOut.printing && input.optOut.hasEnabledPrinter))
  {
    NamesDiffer();
    assert forall c | k == KeyFor(input, c) && Serves(input.optOut, c) :: c == Compute || c == Storage || c == Print;
    assert k == KeyFor(input, Compute) || k == KeyFor(input, Storage) || k == KeyFor(input, Print) || !Contributes(input, k);
  }

  /** The sum of a column over the nodes that contribute to the group. */
  ghost function SumOver(inputs: seq<Input>, k: Key, column: Input -> int): int {
    if inputs == [] then 0
    else SumOver(inputs[..|inputs| - 1], k, column) + if Contributes(inputs[|inputs| - 1], k) then column(inputs[|inputs| - 1]) else 0
  }

  /** Each column of a group's snapshot is its sum over the contributing nodes; a printing node counts as one unit of print throughput. */
  lemma {:induction false} TotalsAreColumnSums(inputs: seq<Input>, k: Key)
    ensures var t := Total(inputs, k);
            && t.nodes == SumOver(inputs, k, _ => 1)
            && t.vcpus == SumOver(inputs, k, (i: Input) => i.vcpus)
            && t.memMB == SumOver(inputs, k, (i: Input) => i.memMB)
            && t.diskMB == SumOver(inputs, k, (i: Input) => i.diskMB)
            && t.printQPS == if k.workload == [112, 114, 105, 110, 116] then t.nodes else 0
  {
    hide Contributes;
    if inputs != [] {
      TotalsAreColumnSums(inputs[..|inputs| - 1], k);
    }
  }

  // ---------------------------------------------------------------------------
  // The order of the output
  // ---------------------------------------------------------------------------

  predicate Before(a: Bytes, b: Bytes) {
    Compare(a, b) < 0
  }

  lemma BeforeIsStrictOrder(a: Bytes, b: Bytes, c: Bytes)
    ensures Before(a, b) || a == b || Before(b, a)
    ensures !(Before(a, b) && Before(b, a)) && !Before(a, a)
    ensures Before(a, b) && Before(b, c) ==> Before(a, c)
  {
    hide Compare;
    LeqTotal(a, b);
    if Before(a, b) && Before(b, c) {
      LeqTransitive(a, b, c);
      LeqTotal(b, c);
    }
  }

  predicate KeyBefore(a: Key, b: Key) {
    if a.operator != b.operator then Before(a.operator, b.operator)
    else if a.nodeClass != b.nodeClass then Before(a.nodeClass, b.nodeClass)
    else Before(a.workload, b.workload)
  }

  lemma KeyBeforeIsStrictOrder(a: Key, b: Key, c: Key)
    ensures KeyBefore(a, b) || a == b || KeyBefore(b, a)
    ensures !(KeyBefore(a, b) && KeyBefore(b, a)) && !KeyBefore(a, a)
    ensures KeyBefore(a, b) && KeyBefore(b, c) ==> KeyBefore(a, c)
  {
    hide Before;
    BeforeIsStrictOrder(a.operator, b.operator, c.operator);
    BeforeIsStrictOrder(a.nodeClass, b.nodeClass, c.nodeClass);
    BeforeIsStrictOrder(a.workload, b.workload, c.workload);
    BeforeIsStrictOrder(a.operator, a.operator, a.operator);
  }

  ghost predicate Ascending(out: seq<Snapshot>) {
    forall i, j | 0 <= i < j < |out| :: KeyBefore(out[i].key, out[j].key)
  }

  /** Two ascending lists of the same snapshots are the same list. */
  lemma {:induction false} AscendingIsUnique(a: seq<Snapshot>, b: seq<Snapshot>)
    requires Ascending(a) && Ascending(b) && forall s :: s in a <==> s in b
    ensures a == b
  {
    hide KeyBefore;
    NonEmptyHasMember(a);
    NonEmptyHasMember(b);
    if a != [] && b != [] {
      assert a[0] in b && b[0] in a;
      KeyBeforeIsStrictOrder(a[0].key, b[0].key, b[0].key);
      assert a[0] == b[0];
      forall s ensures s in a[1..] <==> s in b[1..] {
        TailMembers(a, s);
        TailMembers(b, s);
      }
      AscendingIsUnique(a[1..], b[1..]);
      assert a == [a[0]] + a[1..] && b == [b[0]] + b[1..];
    }
  }

  lemma NonEmptyHasMember(a: seq<Snapshot>)
    ensures a != [] <==> exists s :: s in a
  {
    if a != [] {
      assert a[0] in a;
    }
  }

  lemma TailMembers(a: seq<Snapshot>, s: Snapshot)
    requires Ascending(a) && a != []
    ensures s in a[1..] <==> s in a && s != a[0]
  {
    hide KeyBefore;
    KeyBeforeIsStrictOrder(a[0].key, a[0].key, a[0].key);
    assert a == [a[0]] + a[1..];
  }

  // ---------------------------------------------------------------------------
  // The fold
  // ---------------------------------------------------------------------------

  /** One snapshot per supplied group, in ascending order, each the group's sum. */
  ghost predicate Aggregates(inputs: seq<Input>, out: seq<Snapshot>) {
    && Ascending(out)
    && (forall s :: s in out <==> Supplied(inputs, s.key) && s.amounts == Total(inputs, s.key))
  }

  /** The output depends on which nodes there are and not on their order. */
  lemma AggregateIgnoresOrder(inputs: seq<Input>, a: seq<Snapshot>, inputs': seq<Input>, b: seq<Snapshot>)
    requires multiset(inputs) == multiset(inputs') && Aggregates(inputs, a) && Aggregates(inputs', b)
    ensures a == b
  {
    hide Ascending, Total, Supplied;
    forall s ensures s in a <==> s in b {
      TotalIgnoresOrder(inputs, inputs', s.key);
      SuppliedIgnoresOrder(inputs, inputs', s.key);
      SuppliedIgnoresOrder(inputs', inputs, s.key);
    }
    AscendingIsUnique(a, b);
  }

  function Get(acc: map<Key, Amounts>, k: Key): Amounts {
    if k in acc then acc[k] else ZERO
  }

  function Add(acc: map<Key, Amounts>, k: Key, input: Input, printer: bool): map<Key, Amounts> {
    acc[k := Plus(Get(acc, k), input, printer)]
  }

  ghost predicate Accumulates(inputs: seq<Input>, acc: map<Key, Amounts>) {
    forall k :: (k in acc <==> Supplied(inputs, k)) && Get(acc, k) == Total(inputs, k)
  }

  method AddInput(acc: map<Key, Amounts>, input: Input) returns (acc': map<Key, Amounts>)
    ensures forall k :: (k in acc' <==> k in acc || Contributes(input, k)) && Get(acc', k) == PlusIf(Get(acc, k), input, k)
  {
    hide Contributes, Name, Plus;
    NamesDiffer();
    var operator := input.operator;
    if operator == [] {
      operator := UNKNOWN;
    }
    acc' := acc;
    if !input.optOut.compute {
      acc' := Add(acc', Key(operator, input.nodeClass, Name(Compute)), input, false);
    }
    if !input.optOut.storage {
      acc' := Add(acc', Key(operator, input.nodeClass, Name(Storage)), input, false);
    }
    if !input.optOut.printing && input.optOut.hasEnabledPrinter {
      acc' := Add(acc', Key(operator, input.nodeClass, Name(Print)), input, true);
    }
    forall k {
      GroupsOf(input, k);
    }
  }

  /** The groups one node counts in, written out. */
  lemma GroupsOf(input: Input, k: Key)
    ensures Contributes(input, k) <==>
            || (k == KeyFor(input, Compute) && !input.optOut.compute) || (k == KeyFor(input, Storage) && !input.optOut.storage)
            || (k == KeyFor(input, Print) && !input.optOut.printing && input.optOut.hasEnabledPrinter)
  {
    if Contributes(input, k) {
      var c :| k == KeyFor(input, c) && Serves(input.optOut, c);
    }
    assert Serves(input.optOut, Compute) == !input.optOut.compute && Serves(input.optOut, Storage) == !input.optOut.storage;
    assert Serves(input.optOut, Print) == (!input.optOut.printing && input.optOut.hasEnabledPrinter);
  }

  lemma SuppliedByMore(inputs: seq<Input>, i: nat, k: Key)
    requires i < |inputs|
    ensures Supplied(inputs[..i + 1], k) <==> Supplied(inputs[..i], k) || Contributes(inputs[i], k)
    ensures Total(inputs[..i + 1], k) == PlusIf(Total(inputs[..i], k), inputs[i], k)
  {
    hide Contributes;
    var more := inputs[..i + 1];
    assert more[..i] == inputs[..i] && more[i] == inputs[i];
    if Supplied(inputs[..i], k) {
      var j :| 0 <= j < i && Contributes(inputs[..i][j], k);
      assert more[j] == inputs[..i][j];
    }
    if Supplied(more, k) {
      var j :| 0 <= j <= i && Contributes(more[j], k);
      assert j < i ==> inputs[..i][j] == more[j];
    }
  }

  method AggregateCapacity(inputs: seq<Input>) returns (out: seq<Snapshot>)
    ensures Aggregates(inputs, out)
  {
    hide Contributes, Total, Supplied, PlusIf, KeyBefore;
    var acc: map<Key, Amounts> := map[];
    NoneSupplied();
    for i := 0 to |inputs|
      invariant Accumulates(inputs[..i], acc)
    {
      acc := AddInput(acc, inputs[i]);
      forall k {
        SuppliedByMore(inputs, i, k);
      }
    }
    assert inputs[..|inputs|] == inputs;
    out := [];
    var left := acc.Keys;
    while left != {}
      invariant left <= acc.Keys && Ascending(out)
      invariant forall s :: s in out <==> s.key in acc && s.key !in left && s.amounts == acc[s.key]
      decreases |left|
    {
      var k :| k in left;
      left := left - {k};
      out := InsertSnapshot(out, Snapshot(k, acc[k]));
    }
  }

  lemma NoneSupplied()
    ensures forall k :: !Supplied([], k) && Total([], k) == ZERO
  {
  }

  /** Keeps the list ascending, whatever order the groups come in. */
  method InsertSnapshot(out: seq<Snapshot>, s: Snapshot) returns (out': seq<Snapshot>)
    requires Ascending(out) && forall t | t in out :: t.key != s.key
    ensures Ascending(out') && forall t :: t in out' <==> t in out || t == s
  {
    hide KeyBefore;
    var i := |out|;
    while i > 0 && KeyBefore(s.key, out[i - 1].key)
      invariant 0 <= i <= |out| && forall j | i <= j < |out| :: KeyBefore(s.key, out[j].key)
    {
      i := i - 1;
    }
    out' := out[..i] + [s] + out[i..];
    if i > 0 {
      assert out[i - 1] in out;
      KeyBeforeIsStrictOrder(s.key, out[i - 1].key, s.key);
    }
    InsertedAscending(out, s, i);
    assert out == out[..i] + out[i..];
  }

  lemma InsertedAscending(out: seq<Snapshot>, s: Snapshot, i: nat)
    requires Ascending(out) && i <= |out| && (i > 0 ==> KeyBefore(out[i - 1].key, s.key))
    requires forall j | i <= j < |out| :: KeyBefore(s.key, out[j].key)
    ensures Ascending(out[..i] + [s] + out[i..])
  {
    hide KeyBefore;
    var r := out[..i] + [s] + out[i..];
    forall a, b | 0 <= a < b < |r| ensures KeyBefore(r[a].key, r[b].key) {
      assert r[a] == if a < i then out[a] else if a == i then s else out[a - 1];
      assert r[b] == if b < i then out[b] else if b == i then s else out[b - 1];
      if a < i && b == i {
        KeyBeforeIsStrictOrder(out[a].key, out[i - 1].key, s.key);
      }
    }
  }
}
