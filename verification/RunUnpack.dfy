/** The decompressor's output side: unRLE_obuf_to_output_FAST and _SMALL for blocks that are not randomised (dep/bzip2/bzlib.c). */
module RunUnpack {
  import opened Bits
  import opened MoveToFront
  import opened RunLength
  import opened BlockCrc
  import opened InverseBwt

  lemma LeadLead(a: seq<byte>, b: seq<byte>, u: Unpacked)
    ensures Lead(a, Lead(b, u)) == Lead(a + b, u) && Lead([], u) == u
  {
    Associate(a, b, u.bytes);
    assert [] + u.bytes == u.bytes;
  }

  /** Putting out one byte of a run. */
  lemma OneLess(out: seq<byte>, ch: byte, n: nat, u: Unpacked)
    requires n >= 1
    ensures Lead(out, Lead(Repeat(ch, n), u)) == Lead(out + [ch], Lead(Repeat(ch, n - 1), u))
    ensures Repeat(ch, 1) == [ch] && Repeat(ch, 0) == []
  {
    LeadLead(out, Repeat(ch, n), u);
    LeadLead(out + [ch], Repeat(ch, n - 1), u);
    assert out + Repeat(ch, n) == out + [ch] + Repeat(ch, n - 1);
  }

  /** What has been put out, a run of n bytes still to come, and the rest: together what was owed at the start. */
  ghost predicate Emitting(start: Unpacked, out: seq<byte>, ch: byte, n: nat, unread: Unpacked, crc0: bv32, crc: bv32) {
    start == Lead(out, Lead(Repeat(ch, n), unread)) && crc == Register(crc0, out)
  }

  lemma EmitNone(ch: byte, n: nat, unread: Unpacked, crc: bv32)
    ensures Emitting(Lead(Repeat(ch, n), unread), [], ch, n, unread, crc, crc)
  {
    LeadLead([], [], Lead(Repeat(ch, n), unread));
  }

  lemma EmitOne(start: Unpacked, out: seq<byte>, ch: byte, n: nat, unread: Unpacked, crc0: bv32, crc: bv32)
    requires Emitting(start, out, ch, n, unread, crc0, crc) && n >= 1
    ensures Emitting(start, out + [ch], ch, n - 1, unread, crc0, Update(crc, ch))
  {
    OneLess(out, ch, n, unread);
    RegisterOne(crc0, out, ch);
  }

  /** When a run is done, the next one is begun. */
  lemma EmitNext(start: Unpacked, out: seq<byte>, ch: byte, unread: Unpacked, crc0: bv32, crc: bv32,
                 ch': byte, n: nat, unread': Unpacked)
    requires Emitting(start, out, ch, 0, unread, crc0, crc) && unread == Lead(Repeat(ch', n), unread')
    ensures Emitting(start, out, ch', n, unread', crc0, crc) && (unread.ok <==> start.ok)
  {
    LeadLead([], [], unread);
  }

  lemma EmitsOk(start: Unpacked, out: seq<byte>, ch: byte, n: nat, unread: Unpacked, crc0: bv32, crc: bv32)
    requires Emitting(start, out, ch, n, unread, crc0, crc)
    ensures start == Lead(out, Lead(Repeat(ch, n), unread)) && crc == Register(crc0, out) && start.ok == unread.ok
  {
  }

  // How a run begins, one byte after the other.

  lemma FirstDiffers(w: seq<byte>, m: int)
    requires 1 <= m && |w| == m + 2 && (m == 1 || w[1] != w[0])
    ensures Unrle(w, m) == Lead([w[0]], Unrle(w[1..], m - 1))
  {
  }

  lemma SecondDiffers(w: seq<byte>, m: int)
    requires 2 <= m && |w| == m + 2 && w[1] == w[0] && (m == 2 || w[2] != w[0])
    ensures Unrle(w, m) == Lead(Repeat(w[0], 2), Unrle(w[2..], m - 2))
  {
  }

  lemma ThirdDiffers(w: seq<byte>, m: int)
    requires 3 <= m && |w| == m + 2 && w[1] == w[0] && w[2] == w[0] && (m == 3 || w[3] != w[0])
    ensures Unrle(w, m) == Lead(Repeat(w[0], 3), Unrle(w[3..], m - 3))
  {
  }

  lemma FourEqual(w: seq<byte>, m: int)
    requires 4 <= m && |w| == m + 2 && w[1] == w[0] && w[2] == w[0] && w[3] == w[0]
    ensures Unrle(w, m) == Lead(Repeat(w[0], w[4] as nat + 4), Unrle(w[5..], m - 5))
  {
  }

  /** When two more bytes are read than the block has, the block is corrupt. */
  lemma ReadTooFar(w: seq<byte>)
    requires |w| == 1
    ensures Unrle(w, -1) == Unpacked([], false)
  {
  }

  class FastUnpacker {
    const bwt: FastBwt
    var stateOutLen: nat
    var stateOutCh: byte
    var nblockUsed: int
    const saveNblock: nat
    var k0: byte
    var calculatedBlockCRC: bv32
    /** Everything put out so far, and avail_out. */
    var output: seq<byte>
    var availOut: nat

    ghost predicate Valid()
      reads `nblockUsed, bwt, bwt.tt
    {
      bwt.Valid() && 1 <= nblockUsed <= saveNblock + 2
    }

    /** How many bytes of the block are left, k0 included. */
    ghost function Left(): int
      reads `nblockUsed
    {
      saveNblock + 1 - nblockUsed
    }

    /** k0, the rest of the block, and the bytes that the walk meets behind the block. */
    ghost function Supply(): (w: seq<byte>)
      requires Valid()
      reads `nblockUsed, `k0, bwt, bwt.tt
      ensures |w| == Left() + 2
    {
      [k0] + bwt.Coming(Left() + 1)
    }

    /** What the unread part of the block stands for. */
    ghost function Unread(): Unpacked
      requires Valid()
      reads `nblockUsed, `k0, bwt, bwt.tt
    {
      Unrle(Supply(), Left())
    }

    /** What will still be put out. */
    ghost function Owed(): Unpacked
      requires Valid()
      reads `nblockUsed, `k0, `stateOutLen, `stateOutCh, bwt, bwt.tt
    {
      Lead(Repeat(stateOutCh, stateOutLen), Unread())
    }

    /** The end of BZ2_decompress: the first byte of the block is fetched. */
    constructor (b: FastBwt, nblock: nat)
      requires b.Valid() && nblock == |b.l| && nblock >= 1
      modifies b`tPos, b`place
      ensures Valid() && bwt == b && b.tt == old(b.tt) && saveNblock == nblock && stateOutLen == 0 && output == []
      ensures Owed() == Unrle(old(b.Coming(nblock + 2)), nblock) && calculatedBlockCRC == Initial()
    {
      hide *;
      bwt, saveNblock, stateOutLen, stateOutCh, nblockUsed, k0 := b, nblock, 0, 0, 1, 0;
      calculatedBlockCRC, output, availOut := 0xffff_ffff, [], 0;
      new;
      ghost var n: nat := nblock + 1;
      label before:
      k0 := bwt.GetFast();
      assert old@before(bwt.Coming(n + 1)) == [k0] + bwt.Coming(n);
      OwedAt();
      LeadLead([], [], Unrle([k0] + bwt.Coming(n), nblock));
      NoBytes(stateOutCh);
      InitialIs();
    }

    /** What is owed, spelled out. */
    lemma OwedAt()
      requires bwt.Valid() && 1 <= nblockUsed <= saveNblock + 1
      ensures Valid() && Left() == saveNblock + 1 - nblockUsed >= 0 && |bwt.Coming(Left() + 1)| == Left() + 1
      ensures Owed() == Lead(Repeat(stateOutCh, stateOutLen), Unrle([k0] + bwt.Coming(Left() + 1), Left()))
    {
    }

    /** i bytes of the supply w have been fetched behind its first one. */
    ghost predicate At(w: seq<byte>, i: nat)
      reads bwt, bwt.tt
    {
      i < |w| && bwt.Valid() && w[i + 1..] == bwt.Coming(|w| - 1 - i)
    }

    /** BZ_GET_FAST and nblock_used++. */
    method Get(ghost w: seq<byte>, ghost i: nat) returns (k1: byte)
      requires At(w, i) && i + 1 < |w|
      modifies this`nblockUsed, bwt`tPos, bwt`place
      ensures At(w, i + 1) && nblockUsed == old(nblockUsed) + 1 && k1 == w[i + 1]
    {
      hide *;
      ghost var k: nat := |w| - 2 - i;
      AtIs(w, i);
      label before:
      k1 := bwt.GetFast();
      assert old@before(bwt.Coming(k + 1)) == [k1] + bwt.Coming(k);
      FirstAndRest(w[i + 1..], k1, bwt.Coming(k));
      nblockUsed := nblockUsed + 1;
      AtIs(w, i + 1);
    }

    lemma AtIs(w: seq<byte>, i: nat)
      ensures At(w, i) <==> i < |w| && bwt.Valid() && w[i + 1..] == bwt.Coming(|w| - 1 - i)
    {
    }

    /** The next byte of the block has become k0. */
    lemma SupplyAt(w: seq<byte>, i: nat)
      requires At(w, i) && k0 == w[i] && |w| - 2 - i == Left() && 1 <= nblockUsed
      ensures Valid() && Unread() == Unrle(w[i..], Left())
    {
      assert [k0] + bwt.Coming(Left() + 1) == w[i..];
    }

    /** All bytes of the block have been fetched. */
    lemma EndAt(w: seq<byte>, i: nat)
      requires At(w, i) && |w| - 2 - i == Left() == 0
      ensures Valid() && Unread() == Unrle(w[i..], 0)
    {
      NothingLeft(w[i..], Supply());
    }

    lemma StartAt(w: seq<byte>)
      requires Valid() && w == Supply()
      ensures At(w, 0) && w[0] == k0 && |w| == Left() + 2 && 1 <= nblockUsed && Unread() == Unrle(w, Left())
    {
    }

    /** The next run of the block is begun: a single byte, or stateOutLen of them. */
    method NextRun() returns (one: bool)
      requires Valid() && Left() >= 1
      modifies this`stateOutCh, this`stateOutLen, this`nblockUsed, this`k0, bwt`tPos, bwt`place
      ensures Valid() && old(nblockUsed) < nblockUsed <= saveNblock + 2 && (!one ==> stateOutLen >= 1)
      ensures old(Unread()) == Lead(if one then [stateOutCh] else Repeat(stateOutCh, stateOutLen), Unread())
    {
      hide *;
      ghost var w, m := Supply(), Left();
      LeftIs();
      StartAt(w);
      stateOutCh := k0;
      var k1 := Get(w, 0);
      LeftIs();
      if k1 != k0 {
        FirstDiffers(w, m);
        k0 := k1;
        SupplyAt(w, 1);
        return true;
      }
      if nblockUsed == saveNblock + 1 {
        FirstDiffers(w, m);
        EndAt(w, 1);
        return true;
      }
      stateOutLen := 2;
      k1 := Get(w, 1);
      LeftIs();
      if nblockUsed == saveNblock + 1 {
        SecondDiffers(w, m);
        EndAt(w, 2);
        return false;
      }
      if k1 != k0 {
        SecondDiffers(w, m);
        k0 := k1;
        SupplyAt(w, 2);
        return false;
      }
      stateOutLen := 3;
      k1 := Get(w, 2);
      LeftIs();
      if nblockUsed == saveNblock + 1 {
        ThirdDiffers(w, m);
        EndAt(w, 3);
        return false;
      }
      if k1 != k0 {
        ThirdDiffers(w, m);
        k0 := k1;
        SupplyAt(w, 3);
        return false;
      }
      FourEqual(w, m);
      k1 := Get(w, 3);
      stateOutLen := k1 as nat + 4;
      k0 := Get(w, 4);
      LeftIs();
      SupplyAt(w, 5);
      return false;
    }

    lemma LeftIs()
      ensures Left() == saveNblock + 1 - nblockUsed
    {
    }

    /** A run of n bytes is being put out. */
    ghost predicate Running(start: Unpacked, out0: seq<byte>, crc0: bv32, n: nat)
      reads `nblockUsed, `k0, `stateOutCh, `output, `calculatedBlockCRC, bwt, bwt.tt
    {
      && Valid() && |out0| <= |output| && output[..|out0|] == out0
      && Emitting(start, output[|out0|..], stateOutCh, n, Unread(), crc0, calculatedBlockCRC)
    }

    /** One byte of the run is put out. */
    method PutOne(ghost start: Unpacked, ghost out0: seq<byte>, ghost crc0: bv32, ghost n: nat)
      requires Running(start, out0, crc0, n) && n >= 1 && availOut > 0
      modifies this`output, this`availOut, this`calculatedBlockCRC
      ensures Running(start, out0, crc0, n - 1) && availOut == old(availOut) - 1 && |output| == |old(output)| + 1
    {
      hide *;
      RunningIs(start, out0, crc0, n);
      ghost var out := output[|out0|..];
      EmitOne(start, out, stateOutCh, n, Unread(), crc0, calculatedBlockCRC);
      output := output + [stateOutCh];
      calculatedBlockCRC := Update(calculatedBlockCRC, stateOutCh);
      availOut := availOut - 1;
      assert output[|out0|..] == out + [stateOutCh];
      RunningIs(start, out0, crc0, n - 1);
    }

    lemma RunningIs(start: Unpacked, out0: seq<byte>, crc0: bv32, n: nat)
      ensures Running(start, out0, crc0, n) <==>
                Valid() && |out0| <= |output| && output[..|out0|] == out0
                && Emitting(start, output[|out0|..], stateOutCh, n, Unread(), crc0, calculatedBlockCRC)
      ensures Valid() ==> 1 <= nblockUsed <= saveNblock + 2
    {
    }

    lemma CorruptEnd()
      requires Valid() && nblockUsed > saveNblock + 1
      ensures Unread() == Unpacked([], false)
    {
      ReadTooFar(Supply());
    }

    lemma OwedIs()
      requires Valid()
      ensures nblockUsed <= saveNblock + 2 && Owed() == Lead(Repeat(stateOutCh, stateOutLen), Unread())
      ensures output[|output|..] == [] && output[..|output|] == output
    {
    }

    /** The run is put out, as far as there is room; one says that it is a single byte for which stateOutLen is not set yet. */
    method FinishRun(one: bool, ghost start: Unpacked, ghost out0: seq<byte>, ghost crc0: bv32) returns (full: bool)
      requires Running(start, out0, crc0, if one then 1 else stateOutLen)
      modifies this`output, this`availOut, this`stateOutLen, this`calculatedBlockCRC
      ensures |output| + availOut == |old(output)| + old(availOut)
      ensures full ==> availOut == 0 && stateOutLen >= 1 && Running(start, out0, crc0, stateOutLen)
      ensures !full ==> Running(start, out0, crc0, 0)
    {
      hide *;
      if !one {
        if stateOutLen == 0 { return false; }
        while true
          invariant Running(start, out0, crc0, stateOutLen) && stateOutLen >= 1
          invariant |output| + availOut == |old(output)| + old(availOut)
          decreases stateOutLen
        {
          if availOut == 0 { return true; }
          if stateOutLen == 1 { break; }
          PutOne(start, out0, crc0, stateOutLen);
          stateOutLen := stateOutLen - 1;
        }
      }
      if availOut == 0 {
        stateOutLen := 1;
        return true;
      }
      PutOne(start, out0, crc0, 1);
      full := false;
    }

    /** The loop of unRLE_obuf_to_output_FAST, on its locals. */
    method UnRleLoop() returns (corrupt: bool)
      requires Valid()
      modifies this`output, this`availOut, this`stateOutLen, this`stateOutCh, this`nblockUsed, this`k0, this`calculatedBlockCRC
      modifies bwt`tPos, bwt`place
      ensures corrupt <==> !old(Owed()).ok && |old(Owed()).bytes| <= old(availOut)
      ensures !corrupt ==>
                && Valid() && old(output) <= output && |output| + availOut == |old(output)| + old(availOut)
                && old(Owed()) == Lead(output[|old(output)|..], Owed())
                && calculatedBlockCRC == Register(old(calculatedBlockCRC), output[|old(output)|..])
                && (availOut == 0 || (nblockUsed == saveNblock + 1 && stateOutLen == 0))
    {
      hide *;
      ghost var start, out0, crc0 := Owed(), output, calculatedBlockCRC;
      OwedIs();
      EmitNone(stateOutCh, stateOutLen, Unread(), crc0);
      RunningIs(start, out0, crc0, stateOutLen);
      var one := false;
      while true
        invariant Running(start, out0, crc0, if one then 1 else stateOutLen) && nblockUsed <= saveNblock + 2
        invariant |output| + availOut == |old(output)| + old(availOut)
        decreases saveNblock + 2 - nblockUsed
      {
        var full := FinishRun(one, start, out0, crc0);
        if full {
          Stops(start, out0, crc0);
          MoreOwed(start, out0, crc0, stateOutLen);
          return false;
        }
        RunningIs(start, out0, crc0, 0);
        ghost var out, ch, unread := output[|out0|..], stateOutCh, Unread();
        EmitsOk(start, out, ch, 0, unread, crc0, calculatedBlockCRC);
        if nblockUsed > saveNblock + 1 {
          CorruptEnd();
          AllOut(start, out, ch);
          return true;
        }
        if nblockUsed == saveNblock + 1 {
          stateOutLen := 0;
          Stops(start, out0, crc0);
          EndOk();
          return false;
        }
        LeftIs();
        one := NextRun();
        OneByte(stateOutCh);
        EmitNext(start, out, ch, unread, crc0, calculatedBlockCRC, stateOutCh, if one then 1 else stateOutLen, Unread());
        RunningIs(start, out0, crc0, if one then 1 else stateOutLen);
      }
    }

    /**
     unRLE_obuf_to_output_FAST. What it puts out is the next part of what was owed, as far as there is room, and the CRC goes
     along. It stops when there is no more room or the block is finished. Corruption is reported exactly when the block ends
     within a run and there was room for everything up to there. Then none of the locals is written back: the bytes
     that this call put out do not show in next_out and avail_out.
     */
    method UnRle() returns (corrupt: bool)
      requires Valid()
      modifies this`output, this`availOut, this`stateOutLen, this`stateOutCh, this`nblockUsed, this`k0, this`calculatedBlockCRC
      modifies bwt`tPos, bwt`place
      ensures Valid() && old(output) <= output && |output| + availOut == |old(output)| + old(availOut)
      ensures corrupt <==> !old(Owed()).ok && |old(Owed()).bytes| <= old(availOut)
      ensures corrupt ==> output == old(output) && Owed() == old(Owed()) && calculatedBlockCRC == old(calculatedBlockCRC)
      ensures !corrupt ==>
                && old(Owed()) == Lead(output[|old(output)|..], Owed())
                && calculatedBlockCRC == Register(old(calculatedBlockCRC), output[|old(output)|..])
                && (availOut == 0 || (nblockUsed == saveNblock + 1 && stateOutLen == 0))
    {
      hide *;
      var s_next_out, s_avail_out, s_state_out_len, s_state_out_ch := output, availOut, stateOutLen, stateOutCh;
      var s_nblock_used, s_k0, s_calculatedBlockCRC, s_tPos := nblockUsed, k0, calculatedBlockCRC, bwt.tPos;
      ghost var place := bwt.place;
      corrupt := UnRleLoop();
      if corrupt {
        output, availOut, stateOutLen, stateOutCh := s_next_out, s_avail_out, s_state_out_len, s_state_out_ch;
        nblockUsed, k0, calculatedBlockCRC, bwt.tPos := s_nblock_used, s_k0, s_calculatedBlockCRC, s_tPos;
        bwt.place := place;
      }
    }

    lemma EndOk()
      requires Valid() && nblockUsed == saveNblock + 1
      ensures Unread().ok
    {
    }

    lemma EndedOk()
      requires Valid() && nblockUsed == saveNblock + 1
      ensures Owed().ok
    {
    }

    /** While a run is being put out, more is owed than has been put out. */
    lemma MoreOwed(start: Unpacked, out0: seq<byte>, crc0: bv32, n: nat)
      requires Running(start, out0, crc0, n) && n >= 1
      ensures |start.bytes| > |output| - |out0|
    {
    }

    lemma Stops(start: Unpacked, out0: seq<byte>, crc0: bv32)
      requires Running(start, out0, crc0, stateOutLen)
      ensures Valid() && |out0| <= |output| && output[..|out0|] == out0 && start == Lead(output[|out0|..], Owed())
      ensures calculatedBlockCRC == Register(crc0, output[|out0|..])
    {
    }
  }

  /** A corrupt block ends here. */
  lemma AllOut(start: Unpacked, out: seq<byte>, ch: byte)
    requires start == Lead(out, Lead(Repeat(ch, 0), Unpacked([], false)))
    ensures start == Unpacked(out, false)
  {
    assert out + (Repeat(ch, 0) + []) == out;
  }

  /**
   How much of a block that ends within a run a call of the FAST routine lets the caller see: as much as there is room for, but nothing
   if there is room for all of it. So it depends on the room the calls provide.
   */
  method ShownOfCorrupt(u: FastUnpacker, room: nat) returns (shown: nat)
    requires u.Valid() && !u.Owed().ok
    modifies u, u.bwt
    ensures shown == if |old(u.Owed()).bytes| <= room then 0 else room
  {
    hide *;
    u.availOut := room;
    var before := |u.output|;
    ghost var owed := u.Owed();
    var corrupt := u.UnRle();
    shown := |u.output| - before;
    if !corrupt && u.availOut > 0 {
      u.EndedOk();
      NotFinished(owed, u.output[before..], u.Owed());
    }
  }

  lemma NotFinished(owed: Unpacked, out: seq<byte>, rest: Unpacked)
    requires owed == Lead(out, rest)
    ensures owed.ok == rest.ok
  {
  }

  lemma FirstAndRest(w: seq<byte>, x: byte, rest: seq<byte>)
    requires w == [x] + rest
    ensures |w| == |rest| + 1 && w[0] == x && w[1..] == rest
  {
  }

  lemma NoBytes(ch: byte)
    ensures Repeat(ch, 0) == []
  {
  }

  lemma InitialIs()
    ensures Initial() == 0xffff_ffff
  {
  }

  lemma OneByte(ch: byte)
    ensures [ch] == Repeat(ch, 1)
  {
  }

  lemma NothingLeft(v: seq<byte>, w: seq<byte>)
    requires |v| == 2 == |w|
    ensures Unrle(v, 0) == Unrle(w, 0) == Unpacked([], true)
  {
  }
}
