/**
 The small buckets of mainSort (dep/bzip2/blocksort.c): the positions of a block by their first two characters, and how
 many of them there can be.
 */
module SmallBuckets {
  import opened Bits
  import opened CountingOrder
  import opened Rotations
  import opened RotationOrder

  function PairOf(a: nat, b: nat): nat {
    256 * a + b
  }

  /** The first two characters of every rotation, as one number. */
  ghost function Pairs(block: seq<byte>): (pairs: seq<nat>)
    ensures |pairs| == |block|
    ensures forall x :: 0 <= x < |block| ==> pairs[x] == PairOf(block[x], block[Next(|block|, x)]) && pairs[x] < 65536
  {
    seq(|block|, x requires 0 <= x < |block| => PairOf(block[x], block[Next(|block|, x)]))
  }

  /** Where small bucket c begins. */
  ghost function Start(block: seq<byte>, c: nat): (s: nat)
    ensures s <= |block|
  {
    CountBelowMonotone(Pairs(block), c, c);
    CountBelow(Pairs(block), c)
  }

  lemma StartMonotone(block: seq<byte>, c: nat, c': nat)
    requires c <= c'
    ensures Start(block, c) <= Start(block, c')
  {
    CountBelowMonotone(Pairs(block), c, c');
  }

  /** A place belongs to one small bucket only. */
  lemma OneBucket(block: seq<byte>, c: nat, c': nat, p: int)
    requires Start(block, c) <= p < Start(block, c + 1)
    ensures Start(block, c') <= p ==> c' <= c
    ensures p < Start(block, c') ==> c < c'
  {
    if c < c' { StartMonotone(block, c + 1, c'); } else { StartMonotone(block, c', c); }
  }

  /** Every position stands in its small bucket. */
  ghost predicate InSmall(block: seq<byte>, f: seq<nat>) {
    && IsPerm(f, |block|)
    && forall p :: 0 <= p < |block| ==> Start(block, Pairs(block)[f[p]]) <= p < Start(block, Pairs(block)[f[p]] + 1)
  }

  lemma InSmallAt(block: seq<byte>, f: seq<nat>, p: int)
    requires InSmall(block, f) && 0 <= p < |block|
    ensures |f| == |block| && f[p] < |block| && Start(block, Pairs(block)[f[p]]) <= p < Start(block, Pairs(block)[f[p]] + 1)
  {
  }

  // Counting.

  ghost predicate Distinct(s: seq<nat>) {
    forall i, j :: 0 <= i < j < |s| ==> s[i] != s[j]
  }

  ghost function Elements(s: seq<nat>): set<nat> {
    set x | x in s
  }

  lemma {:induction false} DistinctSize(s: seq<nat>)
    requires Distinct(s)
    ensures |Elements(s)| == |s|
  {
    if s != [] {
      var k := |s| - 1;
      DistinctSize(s[..k]);
      assert s == s[..k] + [s[k]];
      assert Elements(s) == Elements(s[..k]) + {s[k]};
      assert s[k] !in Elements(s[..k]);
    }
  }

  ghost function PlacesOf(keys: seq<nat>, c: nat): set<nat> {
    set i: nat | i < |keys| && keys[i] == c
  }

  lemma {:induction false} PlacesCount(keys: seq<nat>, c: nat)
    ensures |PlacesOf(keys, c)| == Count(keys, c)
  {
    if keys != [] {
      var k := |keys| - 1;
      PlacesCount(keys[..k], c);
      assert PlacesOf(keys, c) == PlacesOf(keys[..k], c) + if keys[k] == c then {k} else {};
      assert k !in PlacesOf(keys[..k], c);
    }
  }

  ghost predicate AllIn(block: seq<byte>, s: seq<nat>, c: nat) {
    forall i :: 0 <= i < |s| ==> s[i] < |block| && Pairs(block)[s[i]] == c
  }

  /** Different positions of one small bucket: no more than there is room for. */
  lemma DistinctFit(block: seq<byte>, s: seq<nat>, c: nat)
    requires Distinct(s) && AllIn(block, s, c)
    ensures |s| <= Start(block, c + 1) - Start(block, c)
  {
    DistinctSize(s);
    PlacesCount(Pairs(block), c);
    CountBelowNext(Pairs(block), c);
    assert Elements(s) <= PlacesOf(Pairs(block), c);
    Fewer(Elements(s), PlacesOf(Pairs(block), c));
  }

  /** If there is room left, some position of the bucket is missing. */
  lemma SomeMissing(block: seq<byte>, s: seq<nat>, c: nat) returns (y: nat)
    requires |s| < Start(block, c + 1) - Start(block, c)
    ensures y < |block| && Pairs(block)[y] == c && y !in s
  {
    PlacesCount(Pairs(block), c);
    CountBelowNext(Pairs(block), c);
    ElementsSize(s);
    var all := PlacesOf(Pairs(block), c);
    if all <= Elements(s) {
      Fewer(all, Elements(s));
      assert false;
    }
    y :| y in all && y !in Elements(s);
  }

  lemma {:induction false} ElementsSize(s: seq<nat>)
    ensures |Elements(s)| <= |s|
  {
    if s != [] {
      var k := |s| - 1;
      ElementsSize(s[..k]);
      assert s == s[..k] + [s[k]];
      assert Elements(s) == Elements(s[..k]) + {s[k]};
    }
  }
}
