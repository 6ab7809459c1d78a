/**
 The hash that binds a conformance pass to a key set: the keys are sorted by their raw
 bytes and hashed back to back, so that neither the index nor the row order matters.
 */
module KeysetHash {
  import opened ByteOrder
  import opened Sequences

  /** SHA-256 is an injective constructor here: equal digests come from equal inputs. */
  datatype Digest = Sha256(preimage: Bytes)

  // ---------------------------------------------------------------------------
  // Sorting
  // ---------------------------------------------------------------------------

  ghost predicate Sorted(keys: seq<Bytes>) {
    forall i, j | 0 <= i < j < |keys| :: Leq(keys[i], keys[j])
  }

  function Insert(k: Bytes, keys: seq<Bytes>): (out: seq<Bytes>)
    ensures multiset(out) == multiset(keys) + multiset{k}
  {
    if keys == [] then [k]
    else if Leq(k, keys[0]) then [k] + keys
    else
      assert keys == [keys[0]] + keys[1..];
      [keys[0]] + Insert(k, keys[1..])
  }

  lemma {:induction false} InsertSorted(k: Bytes, keys: seq<Bytes>)
    requires Sorted(keys)
    ensures Sorted(Insert(k, keys))
  {
    if keys != [] {
      if Leq(k, keys[0]) {
        forall j | 0 < j < |keys| ensures Leq(k, keys[j]) {
          LeqTransitive(k, keys[0], keys[j]);
        }
      } else {
        LeqTotal(k, keys[0]);
        InsertSorted(k, keys[1..]);
        var rest := Insert(k, keys[1..]);
        forall j | 0 <= j < |rest| ensures Leq(keys[0], rest[j]) {
          assert rest[j] in multiset(rest);
          assert rest[j] == k || rest[j] in keys[1..];
        }
      }
    }
  }

  /** Insertion sort from the left; by SortUnique any sorting gives the same result. */
  function Sort(keys: seq<Bytes>): (out: seq<Bytes>)
    ensures multiset(out) == multiset(keys)
  {
    if keys == [] then []
    else
      var n := |keys| - 1;
      assert keys == keys[..n] + [keys[n]];
      Insert(keys[n], Sort(keys[..n]))
  }

  lemma {:induction false} SortSorts(keys: seq<Bytes>)
    ensures Sorted(Sort(keys))
  {
    if keys != [] {
      var n := |keys| - 1;
      SortSorts(keys[..n]);
      InsertSorted(keys[n], Sort(keys[..n]));
    }
  }

  lemma SortedHead(a: seq<Bytes>, b: seq<Bytes>)
    requires Sorted(a) && Sorted(b) && multiset(a) == multiset(b) && a != [] && b != []
    ensures a[0] == b[0]
  {
    hide Compare;
    assert a[0] in multiset(b) && b[0] in multiset(a);
    LeqTotal(a[0], b[0]);
  }

  lemma {:induction false} SortUnique(a: seq<Bytes>, b: seq<Bytes>)
    requires Sorted(a) && Sorted(b) && multiset(a) == multiset(b)
    ensures a == b
  {
    hide Leq;
    assert |a| == |multiset(a)| == |b|;
    if a != [] {
      SortedHead(a, b);
      assert a == [a[0]] + a[1..] && b == [b[0]] + b[1..];
      assert multiset(a[1..]) == multiset(a) - multiset{a[0]} && multiset(b[1..]) == multiset(b) - multiset{b[0]};
      SortUnique(a[1..], b[1..]);
    }
  }

  // ---------------------------------------------------------------------------
  // The key-set hash
  // ---------------------------------------------------------------------------

  function KeysetDigest(keys: seq<Bytes>): Digest {
    Sha256(Flatten(Sort(keys)))
  }

  /** Sorts the caller's keys and feeds them to the hash one after the other. */
  method SortKeys(keys: seq<Bytes>) returns (sorted: seq<Bytes>)
    ensures sorted == Sort(keys)
  {
    hide Insert;
    sorted := [];
    for i := 0 to |keys|
      invariant sorted == Sort(keys[..i])
    {
      assert keys[..i + 1][..i] == keys[..i];
      sorted := Insert(keys[i], sorted);
    }
    assert keys[..|keys|] == keys;
  }

  method HashSortedPubkeys(keys: seq<Bytes>) returns (digest: Digest)
    ensures digest == KeysetDigest(keys)
  {
    hide Sort;
    var sorted := SortKeys(keys);
    var written: Bytes := [];
    for i := 0 to |sorted|
      invariant written == Flatten(sorted[..i])
    {
      assert sorted[..i + 1][..i] == sorted[..i];
      written := written + sorted[i];
    }
    assert sorted[..|sorted|] == sorted;
    digest := Sha256(written);
  }

  ghost predicate AllOfLength(keys: seq<Bytes>, n: nat) {
    forall i | 0 <= i < |keys| :: |keys[i]| == n
  }

  lemma {:induction false} FlattenInjective(a: seq<Bytes>, b: seq<Bytes>, n: nat)
    requires n > 0 && AllOfLength(a, n) && AllOfLength(b, n) && Flatten(a) == Flatten(b)
    ensures a == b
  {
    if a != [] && b != [] {
      var i, j := |a| - 1, |b| - 1;
      var f, g := Flatten(a[..i]), Flatten(b[..j]);
      assert |f| == |g| == |Flatten(a)| - n;
      assert f == Flatten(a)[..|f|] == g && a[i] == Flatten(a)[|f|..] == b[j];
      FlattenInjective(a[..i], b[..j], n);
      assert a == a[..i] + [a[i]] && b == b[..j] + [b[j]];
    }
  }

  lemma SortKeepsLength(keys: seq<Bytes>, n: nat)
    requires AllOfLength(keys, n)
    ensures AllOfLength(Sort(keys), n)
  {
    forall i | 0 <= i < |Sort(keys)| ensures |Sort(keys)[i]| == n {
      assert Sort(keys)[i] in multiset(Sort(keys));
      assert Sort(keys)[i] in multiset(keys);
    }
  }

  /** For keys of one length the digest identifies the keys up to order, and nothing less. */
  lemma DigestIdentifiesKeyset(a: seq<Bytes>, b: seq<Bytes>, n: nat)
    requires n > 0 && AllOfLength(a, n) && AllOfLength(b, n)
    ensures KeysetDigest(a) == KeysetDigest(b) <==> multiset(a) == multiset(b)
  {
    SortSorts(a);
    SortSorts(b);
    if multiset(a) == multiset(b) {
      SortUnique(Sort(a), Sort(b));
    }
    if KeysetDigest(a) == KeysetDigest(b) {
      SortKeepsLength(a, n);
      SortKeepsLength(b, n);
      FlattenInjective(Sort(a), Sort(b), n);
    }
  }

  /** The fixed key length matters: with mixed lengths two different key sets share a digest. */
  lemma MixedLengthsCollide(k: Bytes)
    requires k != []
    ensures var a, b := [[], k + k], [k, k];
            KeysetDigest(a) == KeysetDigest(b) && multiset(a) != multiset(b)
  {
    hide Sort;
    var a, b := [[], k + k], [k, k];
    SortedPair(a);
    SortedPair(b);
    assert Flatten(a[..1]) == a[0] && Flatten(b[..1]) == b[0];
    assert [] !in multiset(b) && [] in multiset(a);
  }

  lemma SortedPair(keys: seq<Bytes>)
    requires |keys| == 2 && Leq(keys[0], keys[1])
    ensures Sort(keys) == keys
  {
    SortSorts(keys);
    SortUnique(Sort(keys), keys);
  }
}
