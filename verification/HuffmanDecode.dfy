/** Decoding one symbol with the tables: GET_MTF_VAL (dep/bzip2/decompress.c). */
module HuffmanDecode {
  import opened Bits
  import opened CountingOrder
  import opened KraftSum
  import opened HuffmanCode
  import opened BitReader

  const BZ_MAX_ALPHA_SIZE := 258

  /** The bits start with the code of symbol i. */
  ghost predicate StartsWith(lens: seq<nat>, bits: seq<bool>, i: nat) {
    i < |lens| && lens[i] <= |bits| && Value(bits[..lens[i]]) == CodeOf(lens, i)
  }

  /**
   What decoding a symbol means, without any table: the symbol whose code the
   bits start with. When there is none the decoder gives up at the 21st bit.
   */
  ghost function ReadSymbol(lens: seq<nat>, bits: seq<bool>): Read<nat> {
    if i: nat :| StartsWith(lens, bits, i) then Done(i, bits[lens[i]..])
    else Stop(if |bits| >= 21 then DataError else NeedInput)
  }

  lemma ValuePrefix(bits: seq<bool>, m: nat)
    requires m < |bits|
    ensures Value(bits[..m + 1]) == 2 * Value(bits[..m]) + BitOf(bits[m])
  {
    assert bits[..m + 1][..m] == bits[..m];
  }

  /** A string that reaches the codes of length n has passed by all shorter codes. */
  lemma {:induction false} PassedShorter(lens: seq<nat>, bits: seq<bool>, m: nat, n: nat)
    requires m < n <= |bits| && Value(bits[..n]) >= FirstCode(lens, n)
    ensures Value(bits[..m]) >= FirstCode(lens, m) + Count(lens, m)
    decreases n
  {
    ValuePrefix(bits, n - 1);
    if m < n - 1 {
      PassedShorter(lens, bits, m, n - 1);
    }
  }

  /** No two codes can both start the same string: the code is prefix-free. */
  lemma OneSymbolOnly(lens: seq<nat>, bits: seq<bool>, i: nat, j: nat)
    requires StartsWith(lens, bits, i) && StartsWith(lens, bits, j)
    ensures i == j
  {
    PlaceInRange(lens, i);
    PlaceInRange(lens, j);
    if lens[i] < lens[j] {
      PassedShorter(lens, bits, lens[i], lens[j]);
    } else if lens[j] < lens[i] {
      PassedShorter(lens, bits, lens[j], lens[i]);
    } else {
      SameRank(lens, i, j);
    }
  }

  /**
   Writing the code of symbol i and decoding it: for every list of lengths with
   Kraft sum at most 1 the symbol comes back after exactly its own bits,
   whatever bits follow.
   */
  lemma SymbolRoundTrip(lens: seq<nat>, i: nat, more: seq<bool>)
    requires i < |lens| && Kraft(lens) <= 1.0
    requires forall k :: 0 <= k < |lens| ==> 1 <= lens[k]
    ensures ReadSymbol(lens, CodeBits(lens, i) + more) == Done(i, more)
  {
    var bits := CodeBits(lens, i) + more;
    CodeFits(lens, i);
    ValueOfBits(lens[i], CodeOf(lens, i));
    assert bits[..lens[i]] == CodeBits(lens, i);
    assert StartsWith(lens, bits, i);
    forall j: nat | StartsWith(lens, bits, j)
      ensures j == i
    {
      OneSymbolOnly(lens, bits, i, j);
    }
    assert bits[lens[i]..] == more;
  }

  /** The string so far lies beyond all codes of lengths minLen..n - 1. */
  ghost predicate Beyond(lens: seq<nat>, minLen: nat, bits: seq<bool>, n: nat) {
    minLen <= n <= |bits|
    && forall m :: minLen <= m < n ==> Value(bits[..m]) >= FirstCode(lens, m) + Count(lens, m)
  }

  lemma BeyondFirst(lens: seq<nat>, minLen: nat, bits: seq<bool>, n: nat)
    requires Beyond(lens, minLen, bits, n) && forall i :: 0 <= i < |lens| ==> minLen <= lens[i]
    requires 1 <= minLen && minLen in lens
    ensures FirstCode(lens, n) <= Value(bits[..n])
    ensures n > minLen ==> 1 <= Value(bits[..n])
  {
    if n == minLen {
      NoneBelow(lens, minLen);
      NothingBefore(lens, minLen);
    } else {
      ValuePrefix(bits, n - 1);
      FirstCodeGrows(lens, minLen, n);
    }
  }

  lemma {:induction false} FirstCodeGrows(lens: seq<nat>, minLen: nat, n: nat)
    requires minLen < n && minLen in lens
    ensures FirstCode(lens, n) >= 1
    decreases n
  {
    if n == minLen + 1 {
      SomeOfLength(lens, minLen);
    } else {
      FirstCodeGrows(lens, minLen, n - 1);
    }
  }

  lemma SomeOfLength(lens: seq<nat>, n: nat)
    requires n in lens
    ensures Count(lens, n) >= 1
  {
    var i :| 0 <= i < |lens| && lens[i] == n;
    PlaceInRange(lens, i);
  }

  /** When the length loop goes on, the string lies beyond the codes of this length too. */
  lemma BeyondNext(lens: seq<nat>, minLen: nat, maxLen: nat, limit: seq<int>, base: seq<int>, perm: seq<nat>,
                   bits: seq<bool>, n: nat)
    requires Tables(lens, minLen, maxLen, limit, base, perm) && Beyond(lens, minLen, bits, n) && n <= 20
    requires Value(bits[..n]) > limit[n]
    ensures Value(bits[..n]) >= FirstCode(lens, n) + Count(lens, n)
  {
    if n > maxLen {
      NoneOfLength(lens, n);
      BeyondFirst(lens, minLen, bits, n);
    }
  }

  lemma {:induction false} NoneOfLength(lens: seq<nat>, n: nat)
    requires forall i :: 0 <= i < |lens| ==> lens[i] < n
    ensures Count(lens, n) == 0
  {
    if lens != [] {
      NoneOfLength(lens[..|lens| - 1], n);
    }
  }

  /** Beyond all codes that could fit, there is no symbol. */
  lemma NoSymbol(lens: seq<nat>, minLen: nat, bits: seq<bool>)
    requires forall i :: 0 <= i < |lens| ==> minLen <= lens[i] <= 20
    requires forall m :: minLen <= m <= |bits| && m <= 20 ==> Value(bits[..m]) >= FirstCode(lens, m) + Count(lens, m)
    ensures forall i: nat :: !StartsWith(lens, bits, i)
  {
    forall i: nat
      ensures !StartsWith(lens, bits, i)
    {
      if StartsWith(lens, bits, i) {
        PlaceInRange(lens, i);
      }
    }
  }

  /** The table look-up after the right length has been found. */
  lemma LookUp(lens: seq<nat>, minLen: nat, maxLen: nat, limit: seq<int>, base: seq<int>, perm: seq<nat>,
               bits: seq<bool>, n: nat)
    requires Tables(lens, minLen, maxLen, limit, base, perm) && Beyond(lens, minLen, bits, n)
    requires n <= 20 && Value(bits[..n]) <= limit[n]
    ensures n <= maxLen
    ensures var place := Value(bits[..n]) - base[n];
            && 0 <= place < |lens| && place < |perm| && perm[place] < |lens|
            && ReadSymbol(lens, bits) == Done(perm[place], bits[n..])
  {
    BeyondFirst(lens, minLen, bits, n);
    var i := PlaceTaken(lens, n, Value(bits[..n]) - FirstCode(lens, n));
    PlaceInRange(lens, i);
    assert StartsWith(lens, bits, i);
    forall j: nat | StartsWith(lens, bits, j)
      ensures j == i
    {
      OneSymbolOnly(lens, bits, i, j);
    }
  }

  lemma GivesUp(lens: seq<nat>, minLen: nat, maxLen: nat, limit: seq<int>, base: seq<int>, perm: seq<nat>, bits: seq<bool>)
    requires Tables(lens, minLen, maxLen, limit, base, perm)
    requires forall m :: minLen <= m <= |bits| && m <= 20 ==> Value(bits[..m]) >= FirstCode(lens, m) + Count(lens, m)
    ensures ReadSymbol(lens, bits) == Stop(if |bits| >= 21 then DataError else NeedInput)
  {
    NoSymbol(lens, minLen, bits);
  }

  lemma TablesRange(lens: seq<nat>, minLen: nat, maxLen: nat, limit: seq<int>, base: seq<int>, perm: seq<nat>)
    requires Tables(lens, minLen, maxLen, limit, base, perm)
    ensures 1 <= minLen <= maxLen <= 20 && minLen in lens && forall i :: 0 <= i < |lens| ==> minLen <= lens[i] <= maxLen
    ensures |limit| > 20 && |base| > 20
  {
  }

  /**
   Where fetching a symbol can be interrupted, with the locals that are saved there: at the first label of GET_MTF_VAL nothing
   has been taken, at the second one zvec holds the zn - 1 bits before the one that is asked for.
   */
  datatype SymbolAt = Whole | Further(zn: nat, zvec: nat)

  function Taken(at: SymbolAt): seq<bool>
    requires at.Further? ==> at.zn >= 1
  {
    match at
    case Whole => []
    case Further(zn, zvec) => BitsOf(zn - 1, zvec)
  }

  /** No code of a length up to that of the string starts it. */
  ghost predicate PastAll(lens: seq<nat>, minLen: nat, taken: seq<bool>) {
    forall m :: minLen <= m <= |taken| ==> Value(taken[..m]) >= FirstCode(lens, m) + Count(lens, m)
  }

  ghost predicate SymbolStands(lens: seq<nat>, minLen: nat, at: SymbolAt) {
    at.Further? ==> minLen < at.zn <= 21 && PastAll(lens, minLen, Taken(at))
  }

  lemma SymbolStandsIs(lens: seq<nat>, minLen: nat, at: SymbolAt)
    ensures SymbolStands(lens, minLen, at) <==> (at.Further? ==> minLen < at.zn <= 21 && PastAll(lens, minLen, Taken(at)))
    ensures Taken(Whole) == [] && (at.Further? && at.zn >= 1 ==> Taken(at) == BitsOf(at.zn - 1, at.zvec))
  {
  }

  /** What was taken, and what comes behind it. */
  lemma PastIsBeyond(lens: seq<nat>, minLen: nat, taken: seq<bool>, rest: seq<bool>)
    requires minLen <= |taken| && PastAll(lens, minLen, taken)
    ensures Beyond(lens, minLen, taken + rest, |taken|) && (taken + rest)[..|taken|] == taken && (taken + rest)[|taken|..] == rest
    ensures Value(taken) >= FirstCode(lens, |taken|) + Count(lens, |taken|)
  {
    assert taken[..|taken|] == taken;
    forall m | minLen <= m < |taken|
      ensures Value((taken + rest)[..m]) >= FirstCode(lens, m) + Count(lens, m)
    {
      assert (taken + rest)[..m] == taken[..m];
    }
  }

  /** The bits so far are too few, and the string is past all codes they could be. */
  lemma BeyondIsPast(lens: seq<nat>, minLen: nat, bits: seq<bool>, n: nat)
    requires Beyond(lens, minLen, bits, n) && Value(bits[..n]) >= FirstCode(lens, n) + Count(lens, n)
    ensures PastAll(lens, minLen, bits[..n])
  {
    hide Value, FirstCode, Count;
    forall m | minLen <= m <= n
      ensures Value(bits[..n][..m]) >= FirstCode(lens, m) + Count(lens, m)
    {
      assert bits[..n][..m] == bits[..m];
    }
  }

  lemma StillWaiting(lens: seq<nat>, minLen: nat, maxLen: nat, limit: seq<int>, base: seq<int>, perm: seq<nat>, taken: seq<bool>)
    requires Tables(lens, minLen, maxLen, limit, base, perm) && |taken| <= 20 && (|taken| < minLen || PastAll(lens, minLen, taken))
    ensures ReadSymbol(lens, taken + []) == Stop(NeedInput)
  {
    assert taken + [] == taken;
    GivesUp(lens, minLen, maxLen, limit, base, perm, taken);
  }

  lemma OneTaken(bits: seq<bool>, n: nat)
    requires n <= |bits|
    ensures BitsOf(n, Value(bits[..n])) == bits[..n] && bits[..n] + bits[n..] == bits
    ensures Value(BitsOf(n, Value(bits[..n]))) == Value(bits[..n])
  {
    hide *;
    BitsOfValue(bits[..n]);
  }

  /** GET_MTF_VAL within a group: the shortest code is fetched first, then bit by bit. */
  method GetSymbol(r: Reader, limit: array<int>, base: array<int>, perm: array<nat>, minLen: nat, at0: SymbolAt,
                   ghost lens: seq<nat>, ghost more: seq<bool>)
    returns (st: Status, sym: nat, at: SymbolAt)
    requires r.Valid() && |lens| <= BZ_MAX_ALPHA_SIZE && SymbolStands(lens, minLen, at0)
    requires Decoding(lens, minLen, limit[..], base[..], perm[..]) && (at0.Further? ==> at0.zvec == Value(Taken(at0)))
    modifies r
    ensures r.Valid() && |r.Unread()| <= |old(r.Unread())| && (st == Ok ==> sym < |lens| && |r.Unread()| < |old(r.Unread())|)
    ensures st == Waiting ==> SymbolStands(lens, minLen, at) && r.input == [] && (at.Further? ==> at.zvec == Value(Taken(at)))
    ensures Resumes(st, sym, r.Ahead(more), ReadSymbol(lens, Taken(at0) + old(r.Ahead(more))),
                    if st == Waiting then ReadSymbol(lens, Taken(at) + r.Ahead(more)) else Stop(NeedInput),
                    if st == Waiting then ReadSymbol(lens, Taken(at) + r.Unread()) else Stop(NeedInput))
  {
    hide *;
    ghost var maxLen := LongestOf(lens, minLen, limit[..], base[..], perm[..]);
    SymbolStandsIs(lens, minLen, at0);
    ghost var bits, lim, bas, prm := Taken(at0) + r.Ahead(more), limit[..], base[..], perm[..];
    ghost var was := ReadSymbol(lens, bits);
    TablesRange(lens, minLen, maxLen, lim, bas, prm);
    at := at0;
    var ok;
    var zn: nat, zvec: nat, pending := minLen, 0, false;
    if at == Whole {
      assert bits == r.Ahead(more);
      ok, zvec := r.GetBits(zn, more);
      if !ok {
        TooShort(lens, minLen, maxLen, lim, bas, prm, r.Unread());
        SymbolStandsIs(lens, minLen, Whole);
        assert [] + r.Ahead(more) == r.Ahead(more);
        ResumesIs(Waiting, 0, r.Ahead(more), was, ReadSymbol(lens, Taken(at) + r.Ahead(more)), ReadSymbol(lens, Taken(at) + r.Unread()));
        return Waiting, 0, at;
      }
      BeyondStart(lens, minLen, bits);
    } else {
      zn, zvec, pending := at.zn - 1, at.zvec, true;
      PastIsBeyond(lens, minLen, Taken(at), r.Ahead(more));
    }
    while true
      invariant r.Valid() && 1 <= zn <= 21 && zn <= |bits| && Beyond(lens, minLen, bits, zn) && (pending ==> zn <= 20)
      invariant zvec == Value(bits[..zn]) && r.Ahead(more) == bits[zn..] && |r.Unread()| <= |old(r.Unread())|
      invariant !pending ==> |r.Unread()| < |old(r.Unread())|
      invariant pending ==> Value(bits[..zn]) >= FirstCode(lens, zn) + Count(lens, zn)
      decreases 21 - zn
    {
      if !pending {
        if zn > 20 {
          BeyondPast(lens, minLen, bits, zn);
          GivesUp(lens, minLen, maxLen, lim, bas, prm, bits);
          ResumesIs(Failed(DataError), 0, r.Ahead(more), was, Stop(NeedInput), Stop(NeedInput));
          return Failed(DataError), 0, at;
        }
        if zvec <= limit[zn] { break; }
        BeyondNext(lens, minLen, maxLen, lim, bas, prm, bits, zn);
      }
      pending := false;
      OneTaken(bits, zn);
      var zj;
      ok, zj := r.GetBits(1, more);
      if !ok {
        at := Further(zn + 1, zvec);
        BeyondIsPast(lens, minLen, bits, zn);
        SymbolStandsIs(lens, minLen, at);
        NoBits(r.Unread());
        StillWaiting(lens, minLen, maxLen, lim, bas, prm, bits[..zn]);
        ResumesIs(Waiting, 0, r.Ahead(more), was, ReadSymbol(lens, Taken(at) + r.Ahead(more)), ReadSymbol(lens, Taken(at) + r.Unread()));
        return Waiting, 0, at;
      }
      NextBit(bits, zn);
      BeyondGrow(lens, minLen, bits, zn);
      zn := zn + 1;
      zvec := zvec * 2 + zj;
    }
    LookUp(lens, minLen, maxLen, lim, bas, prm, bits, zn);
    st := Failed(DataError);
    if zvec - base[zn] < 0 || zvec - base[zn] >= BZ_MAX_ALPHA_SIZE {
      assert false;
      return;
    }
    sym := perm[zvec - base[zn]];
    ResumesIs<nat>(Ok, sym, r.Ahead(more), was, Stop(NeedInput), Stop(NeedInput));
    return Ok, sym, at;
  }

  lemma NoBits(bits: seq<bool>)
    requires |bits| < 1
    ensures bits == []
  {
  }

  lemma LongestOf(lens: seq<nat>, minLen: nat, limit: seq<int>, base: seq<int>, perm: seq<nat>) returns (maxLen: nat)
    requires Decoding(lens, minLen, limit, base, perm)
    ensures Tables(lens, minLen, maxLen, limit, base, perm)
  {
    hide Tables;
    maxLen :| Tables(lens, minLen, maxLen, limit, base, perm);
  }

  lemma TooShort(lens: seq<nat>, minLen: nat, maxLen: nat, limit: seq<int>, base: seq<int>, perm: seq<nat>, bits: seq<bool>)
    requires Tables(lens, minLen, maxLen, limit, base, perm) && |bits| < minLen
    ensures ReadSymbol(lens, [] + bits) == Stop(NeedInput)
  {
    assert [] + bits == bits;
    GivesUp(lens, minLen, maxLen, limit, base, perm, bits);
  }

  lemma BeyondStart(lens: seq<nat>, minLen: nat, bits: seq<bool>)
    requires minLen <= |bits|
    ensures Beyond(lens, minLen, bits, minLen)
  {
  }

  lemma BeyondGrow(lens: seq<nat>, minLen: nat, bits: seq<bool>, n: nat)
    requires Beyond(lens, minLen, bits, n) && n < |bits|
    requires Value(bits[..n]) >= FirstCode(lens, n) + Count(lens, n)
    ensures Beyond(lens, minLen, bits, n + 1)
  {
  }

  lemma BeyondPast(lens: seq<nat>, minLen: nat, bits: seq<bool>, n: nat)
    requires Beyond(lens, minLen, bits, n)
    ensures forall m :: minLen <= m < n ==> Value(bits[..m]) >= FirstCode(lens, m) + Count(lens, m)
  {
  }

  lemma NextBit(bits: seq<bool>, n: nat)
    requires n < |bits|
    ensures Value(bits[..n + 1]) == 2 * Value(bits[..n]) + Value(bits[n..][..1]) && bits[n..][1..] == bits[n + 1..]
  {
    ValuePrefix(bits, n);
    assert bits[n..][..1] == [bits[n]];
    assert Value([bits[n]]) == BitOf(bits[n]) by { assert [bits[n]][..0] == []; }
  }
}
