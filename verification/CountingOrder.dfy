/**
 Counting sort as a function: where each of a list of keys goes when the keys
 are sorted stably. Canonical codes and the inverse Burrows-Wheeler transform
 both number things this way.
 */
module CountingOrder {

  /** How many keys equal n. */
  function Count(keys: seq<nat>, n: nat): nat {
    if keys == [] then 0
    else Count(keys[..|keys| - 1], n) + if keys[|keys| - 1] == n then 1 else 0
  }

  /** How many keys are below n. */
  function CountBelow(keys: seq<nat>, n: nat): nat {
    if keys == [] then 0
    else CountBelow(keys[..|keys| - 1], n) + if keys[|keys| - 1] < n then 1 else 0
  }

  /** The number of earlier keys equal to key i. */
  function Rank(keys: seq<nat>, i: nat): nat
    requires i < |keys|
  {
    Count(keys[..i], keys[i])
  }

  /** Where key i goes when the keys are sorted and equal keys stay in order. */
  function SortedPlace(keys: seq<nat>, i: nat): nat
    requires i < |keys|
  {
    CountBelow(keys, keys[i]) + Rank(keys, i)
  }

  lemma {:induction false} CountBelowNext(keys: seq<nat>, n: nat)
    ensures CountBelow(keys, n + 1) == CountBelow(keys, n) + Count(keys, n)
  {
    if keys != [] {
      CountBelowNext(keys[..|keys| - 1], n);
    }
  }

  lemma {:induction false} CountBelowMonotone(keys: seq<nat>, m: nat, n: nat)
    requires m <= n
    ensures CountBelow(keys, m) <= CountBelow(keys, n) <= |keys|
  {
    if keys != [] {
      CountBelowMonotone(keys[..|keys| - 1], m, n);
    }
  }

  lemma {:induction false} CountPrefix(keys: seq<nat>, i: nat, n: nat)
    requires i < |keys|
    ensures Count(keys[..i + 1], n) == Count(keys[..i], n) + if keys[i] == n then 1 else 0
    ensures Count(keys[..i + 1], n) <= Count(keys, n)
    decreases |keys|
  {
    assert keys[..i + 1][..i] == keys[..i];
    if i + 1 < |keys| {
      var shorter := keys[..|keys| - 1];
      assert shorter[..i] == keys[..i] && shorter[..i + 1] == keys[..i + 1];
      CountPrefix(shorter, i, n);
    } else {
      assert keys[..i + 1] == keys;
    }
  }

  lemma PlaceInRange(keys: seq<nat>, i: nat)
    requires i < |keys|
    ensures Rank(keys, i) < Count(keys, keys[i])
    ensures SortedPlace(keys, i) < CountBelow(keys, keys[i] + 1) <= |keys|
  {
    CountPrefix(keys, i, keys[i]);
    CountBelowNext(keys, keys[i]);
    CountBelowMonotone(keys, keys[i], keys[i] + 1);
  }

  lemma {:induction false} NoneBelow(keys: seq<nat>, n: nat)
    requires forall i :: 0 <= i < |keys| ==> n <= keys[i]
    ensures CountBelow(keys, n) == 0
  {
    if keys != [] {
      NoneBelow(keys[..|keys| - 1], n);
    }
  }

  lemma PlacesApart(keys: seq<nat>, i: nat, n: nat, j: nat)
    requires i < |keys| && j <= |keys|
    requires keys[i] < n || (keys[i] == n && i < j)
    ensures SortedPlace(keys, i) < CountBelow(keys, n) + Count(keys[..j], n)
  {
    PlaceInRange(keys, i);
    if keys[i] < n {
      CountBelowMonotone(keys, keys[i] + 1, n);
    } else {
      assert keys[..j][..i] == keys[..i] && keys[..j][i] == n;
      CountPrefix(keys[..j], i, n);
    }
  }

  lemma SameRank(keys: seq<nat>, i: nat, j: nat)
    requires i < |keys| && j < |keys| && keys[i] == keys[j] && Rank(keys, i) == Rank(keys, j)
    ensures i == j
  {
    var n, a, b := keys[i], if i < j then i else j, if i < j then j else i;
    if a < b {
      assert keys[..b][..a] == keys[..a] && keys[..b][..a + 1] == keys[..a + 1];
      CountPrefix(keys[..b], a, n);
    }
  }

  /** Every place among the keys equal to n is taken. */
  lemma {:induction false} PlaceTaken(keys: seq<nat>, n: nat, r: nat) returns (i: nat)
    requires r < Count(keys, n)
    ensures i < |keys| && keys[i] == n && Rank(keys, i) == r
  {
    var last := |keys| - 1;
    if r < Count(keys[..last], n) {
      i := PlaceTaken(keys[..last], n, r);
      assert keys[..last][..i] == keys[..i];
    } else {
      i := last;
    }
  }

  /** perm lists the indices of the keys in sorted order. */
  ghost predicate Permuted(keys: seq<nat>, perm: seq<nat>) {
    forall i :: 0 <= i < |keys| ==> SortedPlace(keys, i) < |perm| && perm[SortedPlace(keys, i)] == i
  }

  /** Every place is taken by some key. */
  lemma {:induction false} PlaceCovered(keys: seq<nat>, n: nat, r: nat) returns (i: nat)
    requires r < CountBelow(keys, n)
    ensures i < |keys| && SortedPlace(keys, i) == r
  {
    if n == 0 {
      NoneBelow(keys, 0);
      assert false;
    }
    CountBelowNext(keys, n - 1);
    if r < CountBelow(keys, n - 1) {
      i := PlaceCovered(keys, n - 1, r);
    } else {
      i := PlaceTaken(keys, n - 1, r - CountBelow(keys, n - 1));
    }
  }

  lemma {:induction false} AllBelow(keys: seq<nat>, n: nat)
    requires forall i :: 0 <= i < |keys| ==> keys[i] < n
    ensures CountBelow(keys, n) == |keys|
  {
    if keys != [] {
      AllBelow(keys[..|keys| - 1], n);
    }
  }

  /** The places are in the order of the keys, and equal keys stay in order. */
  lemma PlaceOrder(keys: seq<nat>, i: nat, j: nat)
    requires i < |keys| && j < |keys| && SortedPlace(keys, i) < SortedPlace(keys, j)
    ensures keys[i] < keys[j] || (keys[i] == keys[j] && i < j)
  {
    if keys[j] < keys[i] || (keys[i] == keys[j] && j < i) {
      PlacesApart(keys, j, keys[i], i);
    }
  }

  /** A list that satisfies Permuted is the inverse of SortedPlace on both sides. */
  lemma PermutedInverse(keys: seq<nat>, perm: seq<nat>, n: nat, r: nat)
    requires Permuted(keys, perm) && r < |keys| && forall i :: 0 <= i < |keys| ==> keys[i] < n
    ensures r < |perm| && perm[r] < |keys| && SortedPlace(keys, perm[r]) == r
  {
    AllBelow(keys, n);
    var i := PlaceCovered(keys, n, r);
  }
}
