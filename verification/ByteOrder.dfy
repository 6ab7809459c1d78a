/** Byte strings and the order the source compares them in. */
module ByteOrder {

  type Bytes = seq<bv8>

  function Compare(a: Bytes, b: Bytes): (r: int)
    ensures r == 0 <==> a == b
  {
    if a == [] || b == [] then
      if a == b then 0 else if a == [] then -1 else 1
    else if a[0] < b[0] then -1
    else if b[0] < a[0] then 1
    else
      assert a == [a[0]] + a[1..] && b == [b[0]] + b[1..];
      Compare(a[1..], b[1..])
  }

  predicate Leq(a: Bytes, b: Bytes) {
    Compare(a, b) <= 0
  }

  lemma {:induction false} LeqTotal(a: Bytes, b: Bytes)
    ensures Leq(a, b) || Leq(b, a)
    ensures Leq(a, b) && Leq(b, a) ==> a == b
  {
    if a != [] && b != [] && a[0] == b[0] {
      LeqTotal(a[1..], b[1..]);
      assert a == [a[0]] + a[1..] && b == [b[0]] + b[1..];
    }
  }

  lemma {:induction false} LeqTransitive(a: Bytes, b: Bytes, c: Bytes)
    requires Leq(a, b) && Leq(b, c)
    ensures Leq(a, c)
  {
    if a != [] && b != [] && c != [] && a[0] == b[0] == c[0] {
      LeqTransitive(a[1..], b[1..], c[1..]);
    }
  }

  method CompareBytes(a: Bytes, b: Bytes) returns (r: int)
    ensures r == Compare(a, b)
  {
    var n := if |b| < |a| then |b| else |a|;
    for i := 0 to n
      invariant Compare(a, b) == Compare(a[i..], b[i..])
    {
      assert a[i..][1..] == a[i + 1..] && b[i..][1..] == b[i + 1..];
      if a[i] < b[i] {
        return -1;
      } else if a[i] > b[i] {
        return 1;
      }
    }
    if |a| < |b| {
      return -1;
    } else if |a| > |b| {
      return 1;
    }
    return 0;
  }
}
