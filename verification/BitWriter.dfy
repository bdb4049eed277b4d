/** The bit output of the compressor: bsW and its helpers over bsBuff, bsLive and zbits (dep/bzip2/compress.c). */
module BitWriter {
  import opened Bits
  import opened BitReader

  class Writer {
    var bsBuff: int
    var bsLive: int
    const zbits: array<byte>
    var numZ: int
    /** The top bsLive bits of the buffer, as a number. */
    ghost var live: nat

    ghost predicate Valid()
      reads this
    {
      && 0 <= bsLive <= 32 && 0 <= numZ <= zbits.Length
      && live < Pow2(bsLive) && bsBuff == Shl(live, 32 - bsLive)
    }

    /** All bits written so far, in the output area or still in the buffer. */
    ghost function Written(): (bits: seq<bool>)
      requires Valid()
      reads this, zbits
      ensures |bits| == 8 * numZ + bsLive
    {
      BytesBits(zbits[..numZ]) + BitsOf(bsLive, live)
    }

    /** BZ2_bsInitWrite, on an empty output area. */
    constructor (area: array<byte>)
      ensures Valid() && Written() == [] && zbits == area && numZ == 0 && bsLive == 0
    {
      bsBuff, bsLive, numZ, live := 0, 0, 0, 0;
      zbits := area;
    }

    /** One byte leaves the buffer, of which the top n bits are of interest: zbits[numZ] = bsBuff >> 24; bsBuff <<= 8. */
    method ShiftOut(ghost n: nat)
      requires 8 <= n <= 32 && live < Pow2(n) && bsBuff == Shl(live, 32 - n) && 0 <= numZ < zbits.Length
      modifies this, zbits
      ensures bsLive == old(bsLive) - 8 && numZ == old(numZ) + 1
      ensures live < Pow2(n - 8) && bsBuff == Shl(live, 32 - (n - 8))
      ensures BytesBits(zbits[..numZ]) + BitsOf(n - 8, live) == old(BytesBits(zbits[..numZ]) + BitsOf(n, live))
    {
      hide Pow2, Shl, BitsOf, BytesBits, Shr, Low;
      TopByte(bsBuff, n, live);
      ghost var before := zbits[..numZ];
      zbits[numZ] := Shr(bsBuff, 24);
      bsBuff := Low(bsBuff * 256, 32);
      live := Low(live, n - 8);
      bsLive := bsLive - 8;
      numZ := numZ + 1;
      assert zbits[..numZ] == before + [zbits[numZ - 1]];
      BytesBitsAppend(before, zbits[numZ - 1]);
      Associate(BytesBits(before), BitsOf(8, zbits[numZ - 1]), BitsOf(n - 8, live));
    }

    /** bsW: the n low bits of v. There must be room for what is complete. */
    method W(n: int, v: int)
      requires Valid() && 0 <= n <= 24 && 0 <= v < Pow2(n) && |Written()| <= 8 * zbits.Length
      modifies this, zbits
      ensures Valid() && Written() == old(Written()) + BitsOf(n, v)
    {
      hide Pow2, Shl, BitsOf, BytesBits;
      while bsLive >= 8
        invariant Valid() && Written() == old(Written()) && |Written()| <= 8 * zbits.Length
        decreases bsLive
      {
        ShiftOut(bsLive);
      }
      AddField(bsLive, live, n, v);
      Associate(BytesBits(zbits[..numZ]), BitsOf(bsLive, live), BitsOf(n, v));
      bsBuff := bsBuff + Shl(v, 32 - bsLive - n);
      live := Shl(live, n) + v;
      bsLive := bsLive + n;
    }

    /** BZ2_bsInitWrite. */
    method Init()
      requires Valid() && bsLive == 0
      modifies this
      ensures Valid() && bsLive == 0 && numZ == old(numZ) && Written() == old(Written())
    {
      bsLive, bsBuff, live := 0, 0, 0;
    }

    /** The area has been emptied and is used from its start again; numZ = 0. */
    method Rewind()
      requires Valid()
      modifies this
      ensures Valid() && numZ == 0 && Written() == BitsOf(bsLive, live) && bsLive == old(bsLive) && live == old(live)
    {
      numZ := 0;
      assert zbits[..0] == [];
      assert BytesBits([]) + BitsOf(bsLive, live) == BitsOf(bsLive, live);
    }

    /** bsFinishWrite: the last byte is filled up with zeros. */
    method Finish() returns (ghost pad: seq<bool>)
      requires Valid() && |Written()| + 8 <= 8 * zbits.Length
      modifies this, zbits
      ensures 0 <= numZ <= zbits.Length && bsLive <= 0 && |pad| < 8
      ensures BytesBits(zbits[..numZ]) == old(Written()) + pad
    {
      hide Pow2, Shl, BitsOf, BytesBits;
      ghost var s := Written();
      pad := [];
      assert s + [] == s;
      while bsLive > 0
        invariant -8 < bsLive <= 32 && 0 <= numZ && 8 * numZ + bsLive <= |s| && |pad| < 8
        invariant bsLive >= 0 ==> Valid() && Written() == s && pad == []
        invariant bsLive < 0 ==> BytesBits(zbits[..numZ]) == s + pad
      {
        if bsLive < 8 {
          ghost var k := 8 - bsLive;
          FillUp(bsLive, live, k);
          pad := BitsOf(k, 0);
          Associate(BytesBits(zbits[..numZ]), BitsOf(bsLive, live), pad);
          live := Shl(live, k);
          ShiftOut(8);
          NoBits(BytesBits(zbits[..numZ]), live);
        } else {
          ShiftOut(bsLive);
        }
      }
      if bsLive == 0 { NoBits(BytesBits(zbits[..numZ]), live); }
    }
  }

  lemma {:induction false} BytesBitsAppend(bytes: seq<byte>, b: byte)
    ensures BytesBits(bytes + [b]) == BytesBits(bytes) + BitsOf(8, b)
  {
    if bytes == [] {
      assert [b][1..] == [] && BytesBits([b]) == BitsOf(8, b) + [];
    } else {
      BytesBitsAppend(bytes[1..], b);
      assert (bytes + [b])[1..] == bytes[1..] + [b];
    }
  }

  /** The byte shifted out holds the first 8 of the live bits, and the others move up. */
  lemma TopByte(buff: nat, n: nat, live: nat)
    requires 8 <= n <= 32 && live < Pow2(n) && buff == Shl(live, 32 - n)
    ensures Shr(buff, 24) < 256 && Low(live, n - 8) < Pow2(n - 8)
    ensures BitsOf(n, live) == BitsOf(8, Shr(buff, 24)) + BitsOf(n - 8, Low(live, n - 8))
    ensures Low(buff * 256, 32) == Shl(Low(live, n - 8), 32 - (n - 8))
  {
    hide *;
    var top, low := Shr(live, n - 8), Low(live, n - 8);
    TakenApart(live, n - 8);
    assert 8 + (n - 8) == n && (n - 8) + (32 - n) == 24 && 24 + 8 == 32 && (32 - n) + 8 == 32 - (n - 8);
    HighFits(live, 8, n - 8);
    WordSize();
    BitsSplit(8, n - 8, live);
    BitsOfLow(n - 8, n - 8, live);
    ShlAdd(Shl(top, n - 8), low, 32 - n);
    ShlShl(top, n - 8, 32 - n);
    ShlFits(low, n - 8, 32 - n);
    TwoFields(top, Shl(low, 32 - n), 24);
    ShlByte(buff);
    ShlAdd(Shl(top, 24), Shl(low, 32 - n), 8);
    ShlShl(top, 24, 8);
    ShlShl(low, 32 - n, 8);
    ShlFits(low, n - 8, 32 - (n - 8));
    TwoFields(top, Shl(low, 32 - (n - 8)), 32);
  }

  /** A field goes in behind the live bits. */
  lemma AddField(n: nat, live: nat, k: nat, v: nat)
    requires n + k <= 32 && live < Pow2(n) && v < Pow2(k)
    ensures Shl(live, k) + v < Pow2(n + k)
    ensures Shl(live, 32 - n) + Shl(v, 32 - n - k) == Shl(Shl(live, k) + v, 32 - n - k)
    ensures BitsOf(n + k, Shl(live, k) + v) == BitsOf(n, live) + BitsOf(k, v)
  {
    hide *;
    var r := 32 - n - k;
    assert k + r == 32 - n;
    FieldFits(n, live, k, v);
    ShlAdd(Shl(live, k), v, r);
    ShlShl(live, k, r);
    BitsSplit(n, k, Shl(live, k) + v);
    TwoFields(live, v, k);
  }

  lemma FieldFits(n: nat, live: nat, k: nat, v: nat)
    requires live < Pow2(n) && v < Pow2(k)
    ensures Shl(live, k) + v < Pow2(n + k)
  {
    Pow2Sum(n, k);
    ProductGrows(Pow2(n), live + 1, Pow2(k));
  }

  lemma FillUp(n: nat, live: nat, k: nat)
    requires n + k == 8 && live < Pow2(n)
    ensures Shl(live, k) < Pow2(8) && Shl(Shl(live, k), 24) == Shl(live, 32 - n)
    ensures BitsOf(8, Shl(live, k)) == BitsOf(n, live) + BitsOf(k, 0)
  {
    hide *;
    assert k + 24 == 32 - n;
    AddField(n, live, k, 0);
    ZeroField(k);
    ShlShl(live, k, 24);
  }

  lemma ZeroField(k: nat)
    ensures 0 < Pow2(k)
  {
  }

  lemma NoBits(s: seq<bool>, live: nat)
    ensures s + BitsOf(0, live) == s
  {
  }
}
