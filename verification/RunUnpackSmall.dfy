/**
 unRLE_obuf_to_output_SMALL (dep/bzip2/bzlib.c), and its agreement with the FAST routine: from the same last column and origPtr both
 put out the same bytes.
 */
module RunUnpackSmall {
  import opened Bits
  import opened MoveToFront
  import opened RunLength
  import opened BlockCrc
  import opened InverseBwt
  import opened InverseBwtSmall
  import opened RunUnpack

  class SmallUnpacker {
    const bwt: SmallBwt
    var stateOutLen: nat
    var stateOutCh: byte
    var nblockUsed: int
    const saveNblock: nat
    var k0: byte
    var calculatedBlockCRC: bv32
    /** Everything put out so far, and avail_out. */
    var output: seq<byte>
    var availOut: nat

    ghost predicate Valid()
      reads `nblockUsed, bwt, bwt.ll16, bwt.ll4, bwt.cftab
    {
      bwt.Valid() && 1 <= nblockUsed <= saveNblock + 2
    }

    /** How many bytes of the block are left, k0 included. */
    ghost function Left(): int
      reads `nblockUsed
    {
      saveNblock + 1 - nblockUsed
    }

    /** k0, the rest of the block, and the bytes that the walk meets behind the block. */
    ghost function Supply(): (w: seq<byte>)
      requires Valid()
      reads `nblockUsed, `k0, bwt, bwt.ll16, bwt.ll4, bwt.cftab
      ensures |w| == Left() + 2
    {
      [k0] + bwt.Coming(Left() + 1)
    }

    /** What the unread part of the block stands for. */
    ghost function Unread(): Unpacked
      requires Valid()
      reads `nblockUsed, `k0, bwt, bwt.ll16, bwt.ll4, bwt.cftab
    {
      Unrle(Supply(), Left())
    }

    /** What will still be put out. */
    ghost function Owed(): Unpacked
      requires Valid()
      reads `nblockUsed, `k0, `stateOutLen, `stateOutCh, bwt, bwt.ll16, bwt.ll4, bwt.cftab
    {
      Lead(Repeat(stateOutCh, stateOutLen), Unread())
    }

    /** The end of BZ2_decompress: the first byte of the block is fetched. */
    constructor (b: SmallBwt, nblock: nat)
      requires b.Valid() && nblock == |b.l| && nblock >= 1
      modifies b`tPos
      ensures Valid() && bwt == b && saveNblock == nblock && stateOutLen == 0 && output == []
      ensures Owed() == Unrle(old(b.Coming(nblock + 2)), nblock) && calculatedBlockCRC == Initial()
    {
      hide *;
      bwt, saveNblock, stateOutLen, stateOutCh, nblockUsed, k0 := b, nblock, 0, 0, 1, 0;
      calculatedBlockCRC, output, availOut := 0xffff_ffff, [], 0;
      new;
      ghost var n: nat := nblock + 1;
      label before:
      k0 := bwt.GetSmall();
      assert old@before(bwt.Coming(n + 1)) == [k0] + bwt.Coming(n);
      OwedAt();
      LeadLead([], [], Unrle([k0] + bwt.Coming(n), nblock));
      NoBytes(stateOutCh);
      InitialIs();
    }

    /** What is owed, spelled out. */
    lemma OwedAt()
      requires bwt.Valid() && 1 <= nblockUsed <= saveNblock + 1
      ensures Valid() && Left() == saveNblock + 1 - nblockUsed >= 0 && |bwt.Coming(Left() + 1)| == Left() + 1
      ensures Owed() == Lead(Repeat(stateOutCh, stateOutLen), Unrle([k0] + bwt.Coming(Left() + 1), Left()))
    {
    }

    /** i bytes of the supply w have been fetched behind its first one. */
    ghost predicate At(w: seq<byte>, i: nat)
      reads bwt, bwt.ll16, bwt.ll4, bwt.cftab
    {
      i < |w| && bwt.Valid() && w[i + 1..] == bwt.Coming(|w| - 1 - i)
    }

    /** BZ_GET_SMALL and nblock_used++. */
    method Get(ghost w: seq<byte>, ghost i: nat) returns (k1: byte)
      requires At(w, i) && i + 1 < |w|
      modifies this`nblockUsed, bwt`tPos
      ensures At(w, i + 1) && nblockUsed == old(nblockUsed) + 1 && k1 == w[i + 1]
    {
      hide *;
      ghost var k: nat := |w| - 2 - i;
      AtIs(w, i);
      label before:
      k1 := bwt.GetSmall();
      assert old@before(bwt.Coming(k + 1)) == [k1] + bwt.Coming(k);
      FirstAndRest(w[i + 1..], k1, bwt.Coming(k));
      nblockUsed := nblockUsed + 1;
      AtIs(w, i + 1);
    }

    lemma AtIs(w: seq<byte>, i: nat)
      ensures At(w, i) <==> i < |w| && bwt.Valid() && w[i + 1..] == bwt.Coming(|w| - 1 - i)
    {
    }

    /** The next byte of the block has become k0. */
    lemma SupplyAt(w: seq<byte>, i: nat)
      requires At(w, i) && k0 == w[i] && |w| - 2 - i == Left() && 1 <= nblockUsed
      ensures Valid() && Unread() == Unrle(w[i..], Left())
    {
      assert [k0] + bwt.Coming(Left() + 1) == w[i..];
    }

    /** All bytes of the block have been fetched. */
    lemma EndAt(w: seq<byte>, i: nat)
      requires At(w, i) && |w| - 2 - i == Left() == 0
      ensures Valid() && Unread() == Unrle(w[i..], 0)
    {
      NothingLeft(w[i..], Supply());
    }

    lemma StartAt(w: seq<byte>)
      requires Valid() && w == Supply()
      ensures At(w, 0) && w[0] == k0 && |w| == Left() + 2 && 1 <= nblockUsed && Unread() == Unrle(w, Left())
    {
    }

    /** The next run of the block is begun. */
    method NextRun()
      requires Valid() && Left() >= 1
      modifies this`stateOutCh, this`stateOutLen, this`nblockUsed, this`k0, bwt`tPos
      ensures Valid() && old(nblockUsed) < nblockUsed <= saveNblock + 2
      ensures old(Unread()) == Lead(Repeat(stateOutCh, stateOutLen), Unread())
    {
      hide *;
      ghost var w, m := Supply(), Left();
      LeftIs();
      StartAt(w);
      OneByte(w[0]);
      stateOutLen := 1;
      stateOutCh := k0;
      var k1 := Get(w, 0);
      LeftIs();
      if nblockUsed == saveNblock + 1 {
        FirstDiffers(w, m);
        EndAt(w, 1);
        return;
      }
      if k1 != k0 {
        FirstDiffers(w, m);
        k0 := k1;
        SupplyAt(w, 1);
        return;
      }
      stateOutLen := 2;
      k1 := Get(w, 1);
      LeftIs();
      if nblockUsed == saveNblock + 1 {
        SecondDiffers(w, m);
        EndAt(w, 2);
        return;
      }
      if k1 != k0 {
        SecondDiffers(w, m);
        k0 := k1;
        SupplyAt(w, 2);
        return;
      }
      stateOutLen := 3;
      k1 := Get(w, 2);
      LeftIs();
      if nblockUsed == saveNblock + 1 {
        ThirdDiffers(w, m);
        EndAt(w, 3);
        return;
      }
      if k1 != k0 {
        ThirdDiffers(w, m);
        k0 := k1;
        SupplyAt(w, 3);
        return;
      }
      FourEqual(w, m);
      k1 := Get(w, 3);
      stateOutLen := k1 as nat + 4;
      k0 := Get(w, 4);
      LeftIs();
      SupplyAt(w, 5);
    }

    lemma LeftIs()
      ensures Left() == saveNblock + 1 - nblockUsed
    {
    }

    /** A run of n bytes is being put out. */
    ghost predicate Running(start: Unpacked, out0: seq<byte>, crc0: bv32, n: nat)
      reads `nblockUsed, `k0, `stateOutCh, `output, `calculatedBlockCRC, bwt, bwt.ll16, bwt.ll4, bwt.cftab
    {
      && Valid() && |out0| <= |output| && output[..|out0|] == out0
      && Emitting(start, output[|out0|..], stateOutCh, n, Unread(), crc0, calculatedBlockCRC)
    }

    /** One byte of the run is put out. */
    method PutOne(ghost start: Unpacked, ghost out0: seq<byte>, ghost crc0: bv32, ghost n: nat)
      requires Running(start, out0, crc0, n) && n >= 1 && availOut > 0
      modifies this`output, this`availOut, this`calculatedBlockCRC
      ensures Running(start, out0, crc0, n - 1) && availOut == old(availOut) - 1 && |output| == |old(output)| + 1
    {
      hide *;
      RunningIs(start, out0, crc0, n);
      ghost var out := output[|out0|..];
      EmitOne(start, out, stateOutCh, n, Unread(), crc0, calculatedBlockCRC);
      output := output + [stateOutCh];
      calculatedBlockCRC := Update(calculatedBlockCRC, stateOutCh);
      availOut := availOut - 1;
      assert output[|out0|..] == out + [stateOutCh];
      RunningIs(start, out0, crc0, n - 1);
    }

    lemma RunningIs(start: Unpacked, out0: seq<byte>, crc0: bv32, n: nat)
      ensures Running(start, out0, crc0, n) <==>
                Valid() && |out0| <= |output| && output[..|out0|] == out0
                && Emitting(start, output[|out0|..], stateOutCh, n, Unread(), crc0, calculatedBlockCRC)
      ensures Valid() ==> 1 <= nblockUsed <= saveNblock + 2
    {
    }

    lemma CorruptEnd()
      requires Valid() && nblockUsed > saveNblock + 1
      ensures Unread() == Unpacked([], false)
    {
      ReadTooFar(Supply());
    }

    lemma OwedIs()
      requires Valid()
      ensures nblockUsed <= saveNblock + 2 && Owed() == Lead(Repeat(stateOutCh, stateOutLen), Unread())
      ensures output[|output|..] == [] && output[..|output|] == output
    {
    }

    /** The run is put out, as far as there is room. */
    method FinishRun(ghost start: Unpacked, ghost out0: seq<byte>, ghost crc0: bv32) returns (full: bool)
      requires Running(start, out0, crc0, stateOutLen)
      modifies this`output, this`availOut, this`stateOutLen, this`calculatedBlockCRC
      ensures Running(start, out0, crc0, stateOutLen) && |output| + availOut == |old(output)| + old(availOut)
      ensures if full then availOut == 0 else availOut > 0 && stateOutLen == 0
    {
      hide *;
      while true
        invariant Running(start, out0, crc0, stateOutLen) && |output| + availOut == |old(output)| + old(availOut)
        decreases stateOutLen
      {
        if availOut == 0 { return true; }
        if stateOutLen == 0 { return false; }
        PutOne(start, out0, crc0, stateOutLen);
        stateOutLen := stateOutLen - 1;
      }
    }

    /**
     unRLE_obuf_to_output_SMALL, to the contract of the FAST routine up to the end of a corrupt block: it needs room for one byte
     more before it reports the corruption, and it does keep what it put out.
     */
    method UnRle() returns (corrupt: bool)
      requires Valid()
      modifies this`output, this`availOut, this`stateOutLen, this`stateOutCh, this`nblockUsed, this`k0, this`calculatedBlockCRC, bwt`tPos
      ensures Valid() && old(output) <= output && |output| + availOut == |old(output)| + old(availOut)
      ensures corrupt <==> !old(Owed()).ok && |old(Owed()).bytes| < old(availOut)
      ensures corrupt ==> output == old(output) + old(Owed()).bytes
      ensures !corrupt ==>
                && old(Owed()) == Lead(output[|old(output)|..], Owed())
                && calculatedBlockCRC == Register(old(calculatedBlockCRC), output[|old(output)|..])
                && (availOut == 0 || (nblockUsed == saveNblock + 1 && stateOutLen == 0))
    {
      hide *;
      ghost var start, out0, crc0 := Owed(), output, calculatedBlockCRC;
      OwedIs();
      EmitNone(stateOutCh, stateOutLen, Unread(), crc0);
      RunningIs(start, out0, crc0, stateOutLen);
      while true
        invariant Running(start, out0, crc0, stateOutLen) && nblockUsed <= saveNblock + 2
        invariant |output| + availOut == |old(output)| + old(availOut)
        decreases saveNblock + 2 - nblockUsed
      {
        var full := FinishRun(start, out0, crc0);
        Stops(start, out0, crc0);
        if full { return false; }
        RunningIs(start, out0, crc0, 0);
        ghost var out, ch, unread := output[|out0|..], stateOutCh, Unread();
        EmitsOk(start, out, ch, 0, unread, crc0, calculatedBlockCRC);
        if nblockUsed == saveNblock + 1 {
          EndOk();
          return false;
        }
        if nblockUsed > saveNblock + 1 {
          CorruptEnd();
          AllOut(start, out, ch);
          return true;
        }
        LeftIs();
        NextRun();
        EmitNext(start, out, ch, unread, crc0, calculatedBlockCRC, stateOutCh, stateOutLen, Unread());
        RunningIs(start, out0, crc0, stateOutLen);
      }
    }

    lemma EndOk()
      requires Valid() && nblockUsed == saveNblock + 1
      ensures Unread().ok
    {
    }

    lemma Stops(start: Unpacked, out0: seq<byte>, crc0: bv32)
      requires Running(start, out0, crc0, stateOutLen)
      ensures Valid() && |out0| <= |output| && output[..|out0|] == out0 && start == Lead(output[|out0|..], Owed())
      ensures |output| - |out0| <= |start.bytes|
      ensures calculatedBlockCRC == Register(crc0, output[|out0|..])
    {
    }
  }

  // FAST and SMALL agree.

  /** Both forms of the inverse transform meet the same bytes, for any last column and origPtr. */
  lemma FormsAgree(f: FastBwt, s: SmallBwt, k: nat)
    requires f.Valid() && s.Valid() && f.l == s.l && f.place == s.tPos
    ensures f.Coming(k) == s.Coming(k)
  {
    SameWalk(f.l, Links(f.tt[..]), s.perm, f.place, k);
  }

  /** So two unpackers in the same position owe the same bytes. */
  lemma OutputsAgree(f: FastUnpacker, s: SmallUnpacker)
    requires f.Valid() && s.Valid() && f.bwt.l == s.bwt.l && f.bwt.place == s.bwt.tPos
    requires f.bwt.Valid() && s.bwt.Valid() && 1 <= f.nblockUsed <= f.saveNblock + 1
    requires f.stateOutLen == s.stateOutLen && f.stateOutCh == s.stateOutCh && f.nblockUsed == s.nblockUsed
    requires f.saveNblock == s.saveNblock && f.k0 == s.k0
    ensures f.Owed() == s.Owed()
  {
    hide *;
    f.OwedAt();
    s.OwedAt();
    FormsAgree(f.bwt, s.bwt, f.Left() + 1);
  }
}
