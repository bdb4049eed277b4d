/**
 The characters in use and their numbers 0, 1, 2...: makeMaps_e (dep/bzip2/compress.c) and
 makeMaps_d (dep/bzip2/decompress.c).
 */
module CharacterMaps {
  import opened Bits

  /** The number of characters below b that are in use. */
  function UsedBelow(inUse: seq<bool>, b: nat): (u: nat)
    requires b <= |inUse|
    ensures u <= b
  {
    if b == 0 then 0 else UsedBelow(inUse, b - 1) + if inUse[b - 1] then 1 else 0
  }

  lemma {:induction false} UsedMonotone(inUse: seq<bool>, a: nat, b: nat)
    requires a <= b <= |inUse|
    ensures UsedBelow(inUse, a) <= UsedBelow(inUse, b)
    decreases b
  {
    if a < b {
      UsedMonotone(inUse, a, b - 1);
    }
  }

  /** makeMaps_e. */
  method MakeMapsE(inUse: array<bool>, unseqToSeq: array<byte>) returns (nInUse: nat)
    requires inUse.Length == 256 == unseqToSeq.Length && inUse as object != unseqToSeq
    modifies unseqToSeq
    ensures nInUse == UsedBelow(inUse[..], 256)
    ensures forall b :: 0 <= b < 256 && inUse[b] ==> unseqToSeq[b] == UsedBelow(inUse[..], b)
  {
    nInUse := 0;
    for i := 0 to 256
      invariant nInUse == UsedBelow(inUse[..], i)
      invariant forall b :: 0 <= b < i && inUse[b] ==> unseqToSeq[b] == UsedBelow(inUse[..], b)
    {
      if inUse[i] {
        unseqToSeq[i] := nInUse;
        nInUse := nInUse + 1;
      }
    }
  }

  /** The characters below n that are in use, in order. */
  function UsedList(inUse: seq<bool>, n: nat): (l: seq<byte>)
    requires n <= |inUse| && n <= 256
    ensures |l| == UsedBelow(inUse, n)
  {
    if n == 0 then [] else UsedList(inUse, n - 1) + if inUse[n - 1] then [n - 1] else []
  }

  /** The two maps are inverse to each other on the characters in use. */
  lemma {:induction false} MapsInverse(inUse: seq<bool>, b: nat, n: nat)
    requires b < n <= |inUse| && n <= 256 && inUse[b]
    ensures UsedBelow(inUse, b) < UsedBelow(inUse, n) && UsedList(inUse, n)[UsedBelow(inUse, b)] == b
    decreases n
  {
    if b < n - 1 {
      MapsInverse(inUse, b, n - 1);
    }
  }

  /** makeMaps_d. */
  method MakeMapsD(inUse: array<bool>, seqToUnseq: array<byte>) returns (nInUse: nat)
    requires inUse.Length == 256 == seqToUnseq.Length && inUse as object != seqToUnseq
    modifies seqToUnseq
    ensures nInUse == UsedBelow(inUse[..], 256) && nInUse <= 256
    ensures seqToUnseq[..nInUse] == UsedList(inUse[..], 256)
  {
    nInUse := 0;
    for i := 0 to 256
      invariant nInUse == UsedBelow(inUse[..], i) && nInUse <= i
      invariant seqToUnseq[..nInUse] == UsedList(inUse[..], i)
    {
      if inUse[i] {
        seqToUnseq[nInUse] := i;
        nInUse := nInUse + 1;
      }
    }
  }
}
