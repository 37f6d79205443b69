/** The key-hash sidecar that rejects misses before the table is read (src/dict/keyfilter.cpp). */
module KeyFilter {
  import opened Basics
  import opened StableSorting

  type Hash = nat

  /** Hashes keys; nothing is assumed about it. */
  type KeyHash = Text -> Hash

  predicate Less(a: Hash, b: Hash) {
    a < b
  }

  ghost predicate Increasing(s: seq<Hash>) {
    forall i, j :: 0 <= i < j < |s| ==> s[i] < s[j]
  }

  /** A written sidecar: the distinct hashes in increasing order and the longest key. */
  datatype Sidecar = Sidecar(hashes: seq<Hash>, maxKeyLength: nat)

  /** Collects key hashes during import. */
  class KeyFilterWriter {
    var hashes: seq<Hash>
    var maxKeyLength: nat
    var distinctCount: nat

    constructor ()
      ensures hashes == [] && maxKeyLength == 0 && distinctCount == 0
    {
      hashes, maxKeyLength, distinctCount := [], 0, 0;
    }

    method AddHash(hash: Hash, keyLength: nat)
      modifies this
      ensures hashes == old(hashes) + [hash]
      ensures maxKeyLength == if keyLength > old(maxKeyLength) then keyLength else old(maxKeyLength)
      ensures distinctCount == old(distinctCount)
    {
      hashes := hashes + [hash];
      if keyLength > maxKeyLength {
        maxKeyLength := keyLength;
      }
    }

    /** write(): sorts and de-duplicates in place. */
    method Write() returns (sidecar: Sidecar)
      modifies this
      ensures sidecar == Sidecar(hashes, old(maxKeyLength)) && maxKeyLength == old(maxKeyLength)
      ensures Increasing(hashes) && distinctCount == |hashes|
      ensures forall h :: h in hashes <==> h in old(hashes)
    {
      HashesAreWeakOrder(hashes);
      SortIsStable(Less, hashes);
      var sorted := Sort(Less, hashes);
      SameContents(hashes, sorted);
      hashes := Unique(sorted);
      distinctCount := |hashes|;
      sidecar := Sidecar(hashes, maxKeyLength);
    }
  }

  lemma HashesAreWeakOrder(s: seq<Hash>)
    ensures WeakOrderOn(Less, s)
  {
  }

  /** std::ranges::unique over a sorted list, with the tail it leaves erased. */
  method Unique(sorted: seq<Hash>) returns (unique: seq<Hash>)
    requires Sorted(Less, sorted)
    ensures Increasing(unique)
    ensures forall h :: h in unique <==> h in sorted
  {
    unique := [];
    for n := 0 to |sorted|
      invariant Increasing(unique)
      invariant forall h :: h in unique <==> h in sorted[..n]
      invariant unique != [] ==> n > 0 && Last(unique) == sorted[n - 1]
      invariant n > 0 ==> unique != []
    {
      assert sorted[..n + 1] == sorted[..n] + [sorted[n]];
      if unique == [] || Last(unique) != sorted[n] {
        assert forall i :: 0 <= i < |unique| ==> unique[i] < sorted[n] by {
          assert n > 0 ==> !Less(sorted[n], sorted[n - 1]);
        }
        unique := unique + [sorted[n]];
      }
    }
    assert sorted[..|sorted|] == sorted;
  }

  /** containsHash(): a binary search of the mapped hashes. */
  method ContainsHash(hashes: seq<Hash>, hash: Hash) returns (found: bool)
    requires Increasing(hashes)
    ensures found <==> hash in hashes
  {
    var low, high := 0, |hashes|;
    while low < high
      invariant 0 <= low <= high <= |hashes|
      invariant forall i :: 0 <= i < low ==> hashes[i] < hash
      invariant forall i :: high <= i < |hashes| ==> hash <= hashes[i]
    {
      var mid := low + (high - low) / 2;
      if hashes[mid] < hash {
        low := mid + 1;
      } else {
        high := mid;
      }
    }
    found := low < |hashes| && hashes[low] == hash;
  }

  /** contains(): no answer of false is wrong for a key that was added. */
  method Contains(keyHash: KeyHash, sidecar: Sidecar, key: Text) returns (found: bool)
    requires Increasing(sidecar.hashes)
    ensures found <==> sidecar.hashes != [] && !(sidecar.maxKeyLength > 0 && |key| > sidecar.maxKeyLength)
                       && keyHash(key) in sidecar.hashes
  {
    if sidecar.hashes == [] {
      return false;
    }
    if sidecar.maxKeyLength > 0 && |key| > sidecar.maxKeyLength {
      return false;
    }
    found := ContainsHash(sidecar.hashes, keyHash(key));
  }
}
