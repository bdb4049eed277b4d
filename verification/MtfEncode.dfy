/**
 generateMTFValues (dep/bzip2/compress.c): the MTF values are written as 16-bit halves over the very
 words that hold the sorted order, which is still being read.
 */
module MtfEncode {
  import opened Bits
  import opened CountingOrder
  import opened Rotations
  import opened MoveToFront
  import opened CharacterMaps

  // 16-bit halves of 32-bit words.

  /** mtfv[k], seen in the words of arr1. */
  function HalfAt(words: seq<nat>, k: nat): nat
    requires k / 2 < |words|
  {
    if k % 2 == 0 then words[k / 2] % 0x1_0000 else words[k / 2] / 0x1_0000 % 0x1_0000
  }

  function SetHalf(words: seq<nat>, k: nat, v: nat): (w: seq<nat>)
    requires k / 2 < |words|
    ensures |w| == |words|
  {
    if k % 2 == 0 then words[k / 2 := words[k / 2] / 0x1_0000 * 0x1_0000 + v]
    else words[k / 2 := words[k / 2] % 0x1_0000 + 0x1_0000 * v]
  }

  /** mtfv[0..n]. */
  function Halves(words: seq<nat>, n: nat): (s: seq<nat>)
    requires n <= 2 * |words|
    ensures |s| == n && forall k :: 0 <= k < n ==> s[k] == HalfAt(words, k)
  {
    seq(n, k requires 0 <= k < n => HalfAt(words, k))
  }

  /** Either half of a word can be replaced without touching the other. */
  lemma TwoHalves(hi: nat, lo: nat)
    requires lo < 0x1_0000
    ensures (hi * 0x1_0000 + lo) % 0x1_0000 == lo && (hi * 0x1_0000 + lo) / 0x1_0000 == hi
  {
  }

  lemma SetHalfGet(words: seq<nat>, k: nat, v: nat, j: nat)
    requires k / 2 < |words| && j / 2 < |words| && v < 0x1_0000
    ensures HalfAt(SetHalf(words, k, v), j) == if j == k then v else HalfAt(words, j)
  {
    var w := words[k / 2];
    TwoHalves(w / 0x1_0000, v);
    TwoHalves(v, w % 0x1_0000);
    if j != k && j / 2 == k / 2 {
      OtherHalf(j, k);
    }
  }

  lemma OtherHalf(j: nat, k: nat)
    requires j != k && j / 2 == k / 2
    ensures j % 2 != k % 2
  {
  }

  lemma SetHalfAppends(words: seq<nat>, wr: nat, v: nat)
    requires wr < 2 * |words| && v < 0x1_0000
    ensures Halves(SetHalf(words, wr, v), wr + 1) == Halves(words, wr) + [v]
    ensures forall i :: 0 <= i < |words| && i != wr / 2 ==> SetHalf(words, wr, v)[i] == words[i]
  {
    forall j | 0 <= j <= wr
      ensures HalfAt(SetHalf(words, wr, v), j) == (Halves(words, wr) + [v])[j]
    {
      SetHalfGet(words, wr, v, j);
    }
  }

  /** How often each symbol occurs. */
  ghost function Tally(syms: seq<nat>): (freq: seq<nat>)
    ensures |freq| == 258
  {
    seq(258, s requires 0 <= s < 258 => Count(syms, s))
  }

  lemma TallyOne(freq: seq<nat>, syms: seq<nat>, v: nat)
    requires freq == Tally(syms) && v < 258
    ensures freq[v := freq[v] + 1] == Tally(syms + [v])
  {
    assert (syms + [v])[..|syms|] == syms;
  }

  /** mtfv[wr] = v; wr++; mtfFreq[v]++. */
  method Put(arr1: array<nat>, mtfFreq: array<nat>, wr: nat, v: nat) returns (wr': nat)
    requires arr1 != mtfFreq && wr < 2 * arr1.Length && v < 258 && mtfFreq.Length == 258
    requires mtfFreq[..] == Tally(Halves(arr1[..], wr))
    modifies arr1, mtfFreq
    ensures wr' == wr + 1 && Halves(arr1[..], wr') == old(Halves(arr1[..], wr)) + [v]
    ensures forall i :: 0 <= i < arr1.Length && i != wr / 2 ==> arr1[i] == old(arr1[i])
    ensures mtfFreq[..] == Tally(Halves(arr1[..], wr'))
  {
    hide Tally, Halves, Count;
    ghost var words, freq := arr1[..], mtfFreq[..];
    SetHalfAppends(words, wr, v);
    TallyOne(freq, Halves(words, wr), v);
    if wr % 2 == 0 {
      arr1[wr / 2] := arr1[wr / 2] / 0x1_0000 * 0x1_0000 + v;
    } else {
      arr1[wr / 2] := arr1[wr / 2] % 0x1_0000 + 0x1_0000 * v;
    }
    assert arr1[..] == SetHalf(words, wr, v);
    mtfFreq[v] := mtfFreq[v] + 1;
    assert mtfFreq[..] == freq[v := freq[v] + 1];
    wr' := wr + 1;
  }

  /** The next digit of a run of zPend + 1. */
  lemma RunNext(h: seq<nat>, zPend: nat)
    ensures h + RunDigits(zPend + 1) == (h + [if zPend % 2 == 1 then 1 else 0]) + RunDigits(zPend / 2)
    ensures zPend < 2 ==> RunDigits(zPend / 2) == []
    ensures zPend >= 2 ==> (zPend - 2) / 2 + 1 == zPend / 2
  {
    assert (zPend + 1) % 2 == 1 <==> zPend % 2 == 0;
    assert RunDigits(zPend + 1) == [if zPend % 2 == 1 then 1 else 0] + RunDigits(zPend / 2);
  }

  /** The pending run is written out. */
  method PutRun(arr1: array<nat>, mtfFreq: array<nat>, wr0: nat, z: nat) returns (wr: nat)
    requires arr1 != mtfFreq && z > 0 && mtfFreq.Length == 258 && wr0 + z <= 2 * arr1.Length
    requires mtfFreq[..] == Tally(Halves(arr1[..], wr0))
    modifies arr1, mtfFreq
    ensures wr == wr0 + |RunDigits(z)| && Halves(arr1[..], wr) == old(Halves(arr1[..], wr0)) + RunDigits(z)
    ensures forall i :: (wr0 + z + 1) / 2 <= i < arr1.Length ==> arr1[i] == old(arr1[i])
    ensures mtfFreq[..] == Tally(Halves(arr1[..], wr))
  {
    hide *;
    wr := wr0;
    var zPend := z - 1;
    ghost var start := Halves(arr1[..], wr0);
    while true
      invariant wr0 <= wr && 0 <= zPend && wr + zPend + 1 <= wr0 + z
      invariant Halves(arr1[..], wr) + RunDigits(zPend + 1) == start + RunDigits(z)
      invariant forall i :: (wr0 + z + 1) / 2 <= i < arr1.Length ==> arr1[i] == old(arr1[i])
      invariant mtfFreq[..] == Tally(Halves(arr1[..], wr))
      decreases zPend
    {
      ghost var h := Halves(arr1[..], wr);
      RunNext(h, zPend);
      if zPend % 2 == 1 {
        wr := Put(arr1, mtfFreq, wr, 1);
      } else {
        wr := Put(arr1, mtfFreq, wr, 0);
      }
      if zPend < 2 { break; }
      zPend := (zPend - 2) / 2;
    }
    assert Halves(arr1[..], wr) + [] == Halves(arr1[..], wr);
  }

  /** The character other than the front one is searched, everything before it slides back by one. */
  method MoveToFrontOf(yy: array<byte>, ll: byte, ghost m: nat) returns (j: nat)
    requires 1 <= m <= yy.Length && ll in yy[..m] && yy[0] != ll
    modifies yy
    ensures old(yy[..m][0]) != ll && j == Position(old(yy[..m]), ll) && yy[..m] == ToFront(old(yy[..m]), j)
  {
    ghost var yy0 := yy[..];
    ghost var p := Position(yy[..m], ll);
    assert yy[..m][p] == ll && p >= 1;
    var rtmp := yy[1];
    yy[1] := yy[0];
    j := 1;
    while ll != rtmp
      invariant 1 <= j <= p && rtmp == yy0[j] && Sliding(yy0, yy[..], j) && yy[0] == yy0[0]
      invariant forall i :: 0 <= i < j ==> yy0[i] != ll
      decreases p - j
    {
      j := j + 1;
      var rtmp2 := rtmp;
      rtmp := yy[j];
      yy[j] := rtmp2;
    }
    yy[0] := rtmp;
    assert yy0[..m] == old(yy[..m]);
    FirstIs(yy0[..m], ll, j);
    SlidingDone(yy0, yy[..], j, m);
  }

  /** The numbers under which the last column is coded. */
  ghost function CodedColumn(block: seq<byte>, ptr: seq<nat>, inUse: seq<bool>): (col: seq<byte>)
    requires |inUse| == 256 && forall i :: 0 <= i < |ptr| ==> ptr[i] < |block|
    ensures |col| == |ptr|
    ensures forall i :: 0 <= i < |ptr| ==> col[i] == UsedBelow(inUse, block[Before(ptr[i], |block|)])
  {
    seq(|ptr|, i requires 0 <= i < |ptr| => Coded(inUse, block[Before(ptr[i], |block|)]))
  }

  function Coded(inUse: seq<bool>, b: byte): (c: byte)
    requires |inUse| == 256
    ensures c == UsedBelow(inUse, b)
  {
    UsedBelow(inUse, b)
  }

  /** All characters of the block are marked as in use. */
  ghost predicate AllUsed(block: seq<byte>, inUse: seq<bool>) {
    |inUse| == 256 && forall i :: 0 <= i < |block| ==> inUse[block[i]]
  }

  lemma CodedInRange(block: seq<byte>, ptr: seq<nat>, inUse: seq<bool>)
    requires AllUsed(block, inUse) && forall i :: 0 <= i < |ptr| ==> ptr[i] < |block|
    ensures forall i :: 0 <= i < |ptr| ==> CodedColumn(block, ptr, inUse)[i] < UsedBelow(inUse, 256)
  {
    forall i | 0 <= i < |ptr|
      ensures CodedColumn(block, ptr, inUse)[i] < UsedBelow(inUse, 256)
    {
      var b: nat := block[Before(ptr[i], |block|)];
      UsedMonotone(inUse, b + 1, 256);
    }
  }

  /** What remains to be emitted from position i on. */
  ghost predicate Emitting(yy: seq<byte>, col: seq<byte>, i: nat) {
    yy != [] && i <= |col| && forall k :: i <= k < |col| ==> col[k] in yy
  }

  ghost function Rest(yy: seq<byte>, col: seq<byte>, i: nat, z: nat): (syms: seq<nat>)
    requires Emitting(yy, col, i)
    ensures |syms| <= z + |col| - i
  {
    Emit(yy, col[i..], z)
  }

  lemma RestStart(n: nat, col: seq<byte>)
    requires 1 <= n <= 256 && forall k :: 0 <= k < |col| ==> col[k] < n
    ensures Emitting(FirstList(n), col, 0) && Rest(FirstList(n), col, 0, 0) == Emit(FirstList(n), col, 0)
  {
    forall k | 0 <= k < |col|
      ensures col[k] in FirstList(n)
    {
      assert FirstList(n)[col[k]] == col[k];
    }
    assert col[0..] == col;
  }

  lemma RestRun(h: seq<nat>, yy: seq<byte>, col: seq<byte>, i: nat, z: nat)
    requires Emitting(yy, col, i) && i < |col| && yy[0] == col[i]
    ensures Emitting(yy, col, i + 1) && Rest(yy, col, i, z) == Rest(yy, col, i + 1, z + 1)
  {
    assert col[i..][1..] == col[i + 1..];
  }

  lemma RestFront(h: seq<nat>, yy: seq<byte>, col: seq<byte>, i: nat, z: nat)
    requires Emitting(yy, col, i) && i < |col| && yy[0] != col[i]
    ensures col[i] in yy && Emitting(ToFront(yy, Position(yy, col[i])), col, i + 1)
    ensures h + Rest(yy, col, i, z)
         == h + RunDigits(z) + [Position(yy, col[i]) + 1] + Rest(ToFront(yy, Position(yy, col[i])), col, i + 1, 0)
  {
    var j := Position(yy, col[i]);
    ToFrontKeeps(yy, j);
    assert col[i..][1..] == col[i + 1..];
    var rest := Rest(ToFront(yy, j), col, i + 1, 0);
    assert Rest(yy, col, i, z) == RunDigits(z) + [j + 1] + rest;
    assert h + (RunDigits(z) + [j + 1] + rest) == h + RunDigits(z) + [j + 1] + rest;
  }

  lemma RestEnd(yy: seq<byte>, col: seq<byte>, z: nat)
    requires Emitting(yy, col, |col|)
    ensures Rest(yy, col, |col|, z) == RunDigits(z) && RunDigits(0) == []
  {
  }

  lemma ColumnAt(block: seq<byte>, ptr: seq<nat>, inUse: seq<bool>, i: nat)
    requires AllUsed(block, inUse) && i < |ptr| && forall k :: 0 <= k < |ptr| ==> ptr[k] < |block|
    ensures var j := if ptr[i] == 0 then |block| - 1 else ptr[i] - 1;
            inUse[block[j]] && CodedColumn(block, ptr, inUse)[i] == UsedBelow(inUse, block[j])
  {
  }

  lemma SomeUsed(block: seq<byte>, inUse: seq<bool>)
    requires AllUsed(block, inUse) && block != []
    ensures 1 <= UsedBelow(inUse, 256) <= 256
  {
    var b: nat := block[0];
    UsedMonotone(inUse, b + 1, 256);
  }

  /** yy[i] = i. */
  method FillList(yy: array<byte>, n: nat)
    requires n <= 256 == yy.Length
    modifies yy
    ensures yy[..n] == FirstList(n)
  {
    for i := 0 to n
      invariant forall k :: 0 <= k < i ==> yy[k] == k
    {
      yy[i] := i;
    }
  }

  method ClearTally(mtfFreq: array<nat>, ghost arr1: seq<nat>)
    requires mtfFreq.Length == 258
    modifies mtfFreq
    ensures mtfFreq[..] == Tally(Halves(arr1, 0))
  {
    for i := 0 to 258
      invariant forall k :: 0 <= k < i ==> mtfFreq[k] == 0
    {
      mtfFreq[i] := 0;
    }
  }

  /** A character other than the front one: the pending run, then its position. */
  method PutFront(arr1: array<nat>, mtfFreq: array<nat>, yy: array<byte>, wr0: nat, z: nat, ll: byte, ghost m: nat)
    returns (wr: nat)
    requires arr1 != mtfFreq && yy as object != arr1 && yy as object != mtfFreq && mtfFreq.Length == 258
    requires wr0 + z < 2 * arr1.Length && mtfFreq[..] == Tally(Halves(arr1[..], wr0))
    requires 1 <= m <= yy.Length == 256 && ll in yy[..m] && yy[0] != ll
    modifies arr1, mtfFreq, yy
    ensures wr <= wr0 + z + 1 && yy[..m] == ToFront(old(yy[..m]), Position(old(yy[..m]), ll))
    ensures Halves(arr1[..], wr) == old(Halves(arr1[..], wr0)) + RunDigits(z) + [Position(old(yy[..m]), ll) + 1]
    ensures forall i :: (wr0 + z) / 2 < i < arr1.Length ==> arr1[i] == old(arr1[i])
    ensures mtfFreq[..] == Tally(Halves(arr1[..], wr))
  {
    hide *;
    wr := wr0;
    if z > 0 {
      wr := PutRun(arr1, mtfFreq, wr, z);
    } else {
      NoDigits(Halves(arr1[..], wr0));
    }
    var j := MoveToFrontOf(yy, ll, m);
    wr := Put(arr1, mtfFreq, wr, j + 1);
  }

  /**
   generateMTFValues. At every step no more values have been written than characters read, so nothing
   in arr1 is overwritten before it has been read; at most nblock + 1 values come out.
   */
  method GenerateMtfValues(arr1: array<nat>, block: array<byte>, nblock: nat, inUse: array<bool>, unseqToSeq: array<byte>,
                           mtfFreq: array<nat>, ghost blk: seq<byte>)
    returns (nInUse: nat, nMTF: nat)
    requires arr1 != mtfFreq && block != unseqToSeq && inUse as object != unseqToSeq
    requires 1 <= nblock <= arr1.Length && nblock <= block.Length && block[..nblock] == blk
    requires inUse.Length == 256 == unseqToSeq.Length && mtfFreq.Length == 258 && AllUsed(blk, inUse[..])
    requires forall i :: 0 <= i < nblock ==> arr1[i] < nblock
    modifies arr1, unseqToSeq, mtfFreq
    ensures nInUse == UsedBelow(inUse[..], 256) && 1 <= nInUse <= 256 && nMTF <= nblock + 1
    ensures var col := CodedColumn(blk, old(arr1[..nblock]), inUse[..]);
            && (forall i :: 0 <= i < |col| ==> col[i] in FirstList(nInUse))
            && Halves(arr1[..], nMTF) == Emit(FirstList(nInUse), col, 0) + [nInUse + 1]
    ensures mtfFreq[..] == Tally(Halves(arr1[..], nMTF))
  {
    hide *;
    ghost var used, ptr0 := inUse[..], arr1[..nblock];
    ghost var col := CodedColumn(blk, ptr0, used);
    CodedInRange(blk, ptr0, used);
    SomeUsed(blk, used);
    nInUse := MakeMapsE(inUse, unseqToSeq);
    var yy := new byte[256];
    FillList(yy, nInUse);
    ClearTally(mtfFreq, arr1[..]);
    RestStart(nInUse, col);
    ghost var full := Emit(FirstList(nInUse), col, 0);
    NoHalves(arr1[..], full);
    var wr, zPend, i := 0, 0, 0;
    while i < nblock
      invariant 0 <= i <= nblock && 0 <= wr && wr + zPend <= i
      invariant forall k :: i <= k < nblock ==> arr1[k] == ptr0[k]
      invariant forall b :: 0 <= b < 256 && used[b] ==> unseqToSeq[b] == UsedBelow(used, b)
      invariant Emitting(yy[..nInUse], col, i)
      invariant Halves(arr1[..], wr) + Rest(yy[..nInUse], col, i, zPend) == full
      invariant mtfFreq[..] == Tally(Halves(arr1[..], wr))
    {
      ghost var h, list := Halves(arr1[..], wr), yy[..nInUse];
      ColumnAt(blk, ptr0, used, i);
      var j := arr1[i] as int - 1;
      if j < 0 { j := j + nblock; }
      assert blk[j] == block[j];
      var ll := unseqToSeq[block[j]];
      assert ll == col[i];
      if yy[0] == ll {
        RestRun(h, list, col, i, zPend);
        zPend := zPend + 1;
      } else {
        RestFront(h, list, col, i, zPend);
        wr := PutFront(arr1, mtfFreq, yy, wr, zPend, ll, nInUse);
        zPend := 0;
      }
      i := i + 1;
    }
    RestEnd(yy[..nInUse], col, zPend);
    if zPend > 0 {
      wr := PutRun(arr1, mtfFreq, wr, zPend);
    }
    wr := Put(arr1, mtfFreq, wr, nInUse + 1);
    nMTF := wr;
  }

  lemma NoDigits(h: seq<nat>)
    ensures h + RunDigits(0) == h
  {
  }

  lemma NoHalves(words: seq<nat>, full: seq<nat>)
    ensures Halves(words, 0) + full == full
  {
  }
}
