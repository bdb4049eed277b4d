/** The compressor's input side: ADD_CHAR_TO_BLOCK and its helpers (dep/bzip2/bzlib.c). */
module RunPacker {
  import opened Bits
  import opened MoveToFront
  import opened MtfEncode
  import opened RunLength
  import opened BlockCrc

  /** A run being counted and a block that can stand in front of it. */
  ghost predicate Meets(pairs: seq<Pair>, ch: nat, len: nat) {
    && ch <= 256 && (if ch == 256 then len == 0 else 1 <= len <= 255)
    && (pairs != [] && ch < 256 ==> pairs[|pairs| - 1].ch != ch || pairs[|pairs| - 1].len == 255)
  }

  /** The bytes of the run being counted. */
  function RunBytes(ch: nat, len: nat): seq<byte> {
    if ch < 256 then Repeat(ch, len) else []
  }

  /** The block and its bookkeeping after the given runs. */
  ghost predicate Packed(pairs: seq<Pair>, block: seq<byte>, inUse: seq<bool>, crc: bv32) {
    && Proper(pairs) && block == PackAll(pairs) && AllUsed(block, inUse)
    && crc == Register(Initial(), ExpandAll(pairs))
  }

  lemma PackedNone(inUse: seq<bool>)
    requires |inUse| == 256
    ensures Packed([], [], inUse, 0xffff_ffff)
  {
  }

  lemma PackedMore(pairs: seq<Pair>, block: seq<byte>, inUse: seq<bool>, crc: bv32, p: Pair,
                   block': seq<byte>, inUse': seq<bool>, crc': bv32)
    requires Packed(pairs, block, inUse, crc) && 1 <= p.len <= 255 && Meets(pairs, p.ch, p.len)
    requires block' == block + Pack(p) && |inUse'| == 256 && inUse'[p.ch] && (p.len >= 4 ==> inUse'[p.len - 4])
    requires |inUse| == 256 && forall c :: 0 <= c < 256 && inUse[c] ==> inUse'[c]
    requires crc' == Register(Register(Initial(), ExpandAll(pairs)), Repeat(p.ch, p.len))
    ensures Packed(pairs + [p], block', inUse', crc')
    ensures ExpandAll(pairs + [p]) == ExpandAll(pairs) + Repeat(p.ch, p.len)
  {
    hide Register, PackAll, ExpandAll, AllUsed, Pack;
    PackAppend(pairs, p);
    RegisterConcat(Initial(), ExpandAll(pairs), Repeat(p.ch, p.len));
    UsedMore(block, inUse, p, inUse');
  }

  lemma UsedMore(block: seq<byte>, inUse: seq<bool>, p: Pair, inUse': seq<bool>)
    requires AllUsed(block, inUse) && 1 <= p.len <= 255 && |inUse'| == 256
    requires inUse'[p.ch] && (p.len >= 4 ==> inUse'[p.len - 4]) && forall c :: 0 <= c < 256 && inUse[c] ==> inUse'[c]
    ensures AllUsed(block + Pack(p), inUse')
  {
    var b := block + Pack(p);
    forall i | 0 <= i < |b|
      ensures inUse'[b[i]]
    {
      if i >= |block| { assert b[i] == Pack(p)[i - |block|]; }
    }
  }

  lemma RunCrc(crc: bv32, ch: byte, i: nat)
    ensures Register(crc, Repeat(ch, i + 1)) == Update(Register(crc, Repeat(ch, i)), ch) && Register(crc, Repeat(ch, 0)) == crc
  {
    assert Repeat(ch, i + 1) == Repeat(ch, i) + [ch];
    RegisterOne(crc, Repeat(ch, i), ch);
  }

  class Packer {
    var state_in_ch: nat
    var state_in_len: nat
    const block: array<byte>
    var nblock: nat
    const inUse: array<bool>
    var blockCRC: bv32
    ghost var pairs: seq<Pair>

    ghost predicate Valid()
      reads this, block, inUse
    {
      && nblock <= block.Length && inUse.Length == 256
      && Meets(pairs, state_in_ch, state_in_len)
      && Packed(pairs, block[..nblock], inUse[..], blockCRC)
    }

    /** What the block stands for. */
    ghost function Written(): seq<byte>
      reads this
    {
      ExpandAll(pairs)
    }

    /** All data since the block was begun. */
    ghost function Data(): seq<byte>
      reads this
    {
      Written() + RunBytes(state_in_ch, state_in_len)
    }

    /** init_RL and prepare_new_block. */
    constructor (size: nat)
      ensures Valid() && fresh(block) && fresh(inUse) && block.Length == size
      ensures state_in_ch == 256 && nblock == 0 && pairs == [] && Written() == []
    {
      hide Packed, Register, PackAll;
      state_in_ch, state_in_len, nblock, blockCRC, pairs := 256, 0, 0, 0xffff_ffff, [];
      block := new byte[size];
      inUse := new bool[256](_ => false);
      new;
      assert block[..0] == [];
      PackedNone(inUse[..]);
    }

    /** The run enters the CRC. */
    method CountRun(ch: byte)
      modifies `blockCRC
      ensures blockCRC == Register(old(blockCRC), Repeat(ch, state_in_len))
    {
      hide Register, Update;
      var i := 0;
      RunCrc(blockCRC, ch, 0);
      while i < state_in_len
        invariant 0 <= i <= state_in_len && blockCRC == Register(old(blockCRC), Repeat(ch, i))
      {
        RunCrc(old(blockCRC), ch, i);
        blockCRC := Update(blockCRC, ch);
        i := i + 1;
      }
    }

    /** add_pair_to_block. */
    method AddPair()
      requires Valid() && state_in_ch < 256 && nblock + 5 <= block.Length
      modifies this, block, inUse
      ensures Valid0() && state_in_ch == old(state_in_ch) && state_in_len == old(state_in_len)
      ensures pairs == old(pairs) + [Pair(state_in_ch, state_in_len)] && Written() == old(Data())
      ensures old(nblock) < nblock <= old(nblock) + 5
      ensures old(state_in_len) < 4 ==> nblock == old(nblock) + old(state_in_len)
    {
      hide Packed, Register, Update, PackAll, ExpandAll;
      ghost var block0, used0, crc0 := block[..nblock], inUse[..], blockCRC;
      var ch: byte := state_in_ch;
      ghost var p := Pair(ch, state_in_len);
      CountRun(ch);
      inUse[state_in_ch] := true;
      match state_in_len {
        case 1 =>
          block[nblock] := ch;
          nblock := nblock + 1;
        case 2 =>
          block[nblock], block[nblock + 1] := ch, ch;
          nblock := nblock + 2;
        case 3 =>
          block[nblock], block[nblock + 1], block[nblock + 2] := ch, ch, ch;
          nblock := nblock + 3;
        case _ =>
          inUse[state_in_len - 4] := true;
          block[nblock], block[nblock + 1], block[nblock + 2], block[nblock + 3] := ch, ch, ch, ch;
          block[nblock + 4] := state_in_len - 4;
          nblock := nblock + 5;
      }
      assert block[..nblock] == block0 + Pack(p);
      PackedCrc(pairs, block0, used0, crc0);
      PackedMore(pairs, block0, used0, crc0, p, block[..nblock], inUse[..], blockCRC);
      pairs := pairs + [p];
    }

    /** The block is in order; the run has just been written. */
    ghost predicate Valid0()
      reads this, block, inUse
    {
      nblock <= block.Length && inUse.Length == 256 && Packed(pairs, block[..nblock], inUse[..], blockCRC)
    }

    /** flush_RL. */
    method FlushRL()
      requires Valid() && nblock + 5 <= block.Length
      modifies this, block, inUse
      ensures Valid() && state_in_ch == 256 && state_in_len == 0 && Written() == Data() == old(Data())
      ensures nblock <= old(nblock) + 5 && (old(state_in_ch) < 256 ==> nblock > old(nblock))
    {
      hide Packed, ExpandAll;
      if state_in_ch < 256 { AddPair(); }
      state_in_ch, state_in_len := 256, 0;
      assert Written() + [] == Written();
    }

    /** ADD_CHAR_TO_BLOCK. Afterwards a run is pending, whatever happened to the block. */
    method AddChar(zchh: byte)
      requires Valid() && nblock + 5 <= block.Length && (state_in_ch == 256 ==> pairs == [])
      modifies this, block, inUse
      ensures Valid() && Data() == old(Data()) + [zchh] && state_in_ch < 256
      ensures old(nblock) <= nblock <= old(nblock) + 5
    {
      hide Packed, ExpandAll, Register, Update;
      ghost var run, data := RunBytes(state_in_ch, state_in_len), Data();
      if zchh != state_in_ch && state_in_len == 1 {
        AddOne();
        state_in_ch := zchh;
        assert Repeat(zchh, 1) == [zchh];
      } else if zchh != state_in_ch || state_in_len == 255 {
        if state_in_ch < 256 { AddPair(); } else { assert Written() + [] == Written(); }
        state_in_ch := zchh;
        state_in_len := 1;
        assert Repeat(zchh, 1) == [zchh];
      } else {
        assert Repeat(zchh, state_in_len + 1) == Repeat(zchh, state_in_len) + [zchh];
        Associate(Written(), Repeat(zchh, state_in_len), [zchh]);
        state_in_len := state_in_len + 1;
      }
    }

    /** The fast track: a run of one is written directly. */
    method AddOne()
      requires Valid() && state_in_ch < 256 && state_in_len == 1 && nblock + 5 <= block.Length
      modifies this, block, inUse
      ensures Valid0() && nblock == old(nblock) + 1 && state_in_len == 1
      ensures pairs == old(pairs) + [Pair(old(state_in_ch), 1)] && Written() == old(Data())
    {
      hide Packed, Register, Update, PackAll, ExpandAll;
      ghost var block0, used0, crc0 := block[..nblock], inUse[..], blockCRC;
      var ch: byte := state_in_ch;
      RunCrc(crc0, ch, 0);
      blockCRC := Update(blockCRC, ch);
      inUse[state_in_ch] := true;
      block[nblock] := ch;
      nblock := nblock + 1;
      assert block[..nblock] == block0 + Pack(Pair(ch, 1));
      PackedCrc(pairs, block0, used0, crc0);
      PackedMore(pairs, block0, used0, crc0, Pair(ch, 1), block[..nblock], inUse[..], blockCRC);
      pairs := pairs + [Pair(ch, 1)];
    }

    /** prepare_new_block: the run being counted is kept for the new block. */
    method NewBlock()
      requires Valid()
      modifies this, inUse
      ensures Valid() && nblock == 0 && pairs == [] && Written() == []
      ensures state_in_ch == old(state_in_ch) && state_in_len == old(state_in_len)
    {
      hide Packed, Register, PackAll;
      nblock := 0;
      blockCRC := 0xffff_ffff;
      var i := 0;
      while i < 256
        modifies inUse
        invariant 0 <= i <= 256
      {
        inUse[i] := false;
        i := i + 1;
      }
      pairs := [];
      assert block[..0] == [];
      PackedNone(inUse[..]);
    }
  }

  lemma PackedCrc(pairs: seq<Pair>, block: seq<byte>, inUse: seq<bool>, crc: bv32)
    requires Packed(pairs, block, inUse, crc)
    ensures crc == Register(Initial(), ExpandAll(pairs)) && |inUse| == 256
  {
  }
}
