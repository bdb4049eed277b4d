/**
 The mapping table of a block: which of the 256 characters are in use, written as 16 flags and
 one row of 16 bits for every flag that is set (dep/bzip2/compress.c, dep/bzip2/decompress.c).
 */
module MappingTable {
  import opened Bits
  import opened BitReader
  import opened BitWriter

  // The format.

  /** Some character of row i is in use. */
  predicate RowUsed(inUse: seq<bool>, i: nat)
    requires |inUse| == 256 && i < 16
  {
    true in inUse[16 * i..16 * i + 16]
  }

  function Flags(inUse: seq<bool>): (f: seq<bool>)
    requires |inUse| == 256
    ensures |f| == 16 && forall i :: 0 <= i < 16 ==> f[i] == RowUsed(inUse, i)
  {
    seq(16, i requires 0 <= i < 16 => RowUsed(inUse, i))
  }

  /** The rows that are written, from row i on. */
  function RowBits(inUse: seq<bool>, i: nat): seq<bool>
    requires |inUse| == 256 && i <= 16
    decreases 16 - i
  {
    if i == 16 then []
    else (if RowUsed(inUse, i) then inUse[16 * i..16 * i + 16] else []) + RowBits(inUse, i + 1)
  }

  function MapBits(inUse: seq<bool>): seq<bool>
    requires |inUse| == 256
  {
    Flags(inUse) + RowBits(inUse, 0)
  }

  /** The characters from k on: a bit for each one in a row whose flag is set. */
  function ReadCells(bits: seq<bool>, flags: seq<bool>, k: nat): (r: Read<seq<bool>>)
    requires |flags| == 16 && k <= 256
    ensures r.Done? ==> |r.value| == 256 - k && |r.rest| <= |bits|
    decreases 256 - k
  {
    if k == 256 then Done([], bits)
    else if !flags[k / 16] then Prepend([false], ReadCells(bits, flags, k + 1))
    else if bits == [] then Stop(NeedInput)
    else Prepend([bits[0]], ReadCells(bits[1..], flags, k + 1))
  }

  /** The flags behind those that are there already, and the rows. */
  function ReadFlags(bits: seq<bool>, flags: seq<bool>): (r: Read<seq<bool>>)
    requires |flags| <= 16
    ensures r.Done? ==> |r.value| == 256 && |r.rest| <= |bits|
    decreases 16 - |flags|
  {
    if |flags| == 16 then ReadCells(bits, flags, 0)
    else if bits == [] then Stop(NeedInput)
    else ReadFlags(bits[1..], flags + [bits[0]])
  }

  function ReadMap(bits: seq<bool>): (r: Read<seq<bool>>)
    ensures r.Done? ==> |r.value| == 256 && |r.rest| <= |bits|
  {
    ReadFlags(bits, [])
  }

  /** A row whose flag is set is read cell by cell, up to cell `to`. */
  lemma {:induction false} CellsBack(inUse: seq<bool>, k: nat, to: nat, more: seq<bool>)
    requires |inUse| == 256 && k <= to <= 256 && forall m :: k <= m < to ==> RowUsed(inUse, m / 16)
    ensures ReadCells(inUse[k..to] + more, Flags(inUse), k) == Prepend(inUse[k..to], ReadCells(more, Flags(inUse), to))
    decreases 256 - k
  {
    hide RowUsed;
    if k == to {
      assert inUse[k..to] + more == more;
      PrependPrepend([], [], ReadCells(more, Flags(inUse), to));
    } else {
      var bits := inUse[k..to] + more;
      assert bits[1..] == inUse[k + 1..to] + more && bits[0] == inUse[k];
      CellsBack(inUse, k + 1, to, more);
      PrependPrepend([inUse[k]], inUse[k + 1..to], ReadCells(more, Flags(inUse), to));
      assert inUse[k..to] == [inUse[k]] + inUse[k + 1..to];
    }
  }

  /** A row whose flag is not set is passed over. */
  lemma {:induction false} CellsSkipped(bits: seq<bool>, flags: seq<bool>, cells: seq<bool>, k: nat, to: nat)
    requires |flags| == 16 && |cells| == 256 && k <= to <= 256
    requires forall m :: k <= m < to ==> !flags[m / 16] && !cells[m]
    ensures Prepend(cells[..k], ReadCells(bits, flags, k)) == Prepend(cells[..to], ReadCells(bits, flags, to))
    decreases 256 - k
  {
    if k < to {
      PrependPrepend(cells[..k], [false], ReadCells(bits, flags, k + 1));
      assert cells[..k + 1] == cells[..k] + [false];
      CellsSkipped(bits, flags, cells, k + 1, to);
    }
  }

  lemma UnusedCells(inUse: seq<bool>, i: nat)
    requires |inUse| == 256 && i < 16 && !RowUsed(inUse, i)
    ensures forall m :: 16 * i <= m < 16 * i + 16 ==> !inUse[m]
  {
    var row := inUse[16 * i..16 * i + 16];
    forall m | 16 * i <= m < 16 * i + 16
      ensures !inUse[m]
    {
      assert row[m - 16 * i] in row;
    }
  }

  lemma {:induction false} RowsRoundTrip(inUse: seq<bool>, i: nat, more: seq<bool>)
    requires |inUse| == 256 && i <= 16
    ensures Prepend(inUse[..16 * i], ReadCells(RowBits(inUse, i) + more, Flags(inUse), 16 * i)) == Done(inUse, more)
    decreases 16 - i
  {
    hide RowUsed, ReadCells;
    var flags := Flags(inUse);
    if i == 16 {
      assert [] + more == more && inUse[..256] == inUse;
      CellsEnd(inUse, more, flags);
    } else {
      RowsRoundTrip(inUse, i + 1, more);
      var rest := RowBits(inUse, i + 1) + more;
      if RowUsed(inUse, i) {
        var row := inUse[16 * i..16 * i + 16];
        Associate(row, RowBits(inUse, i + 1), more);
        CellsBack(inUse, 16 * i, 16 * i + 16, rest);
        PrependPrepend(inUse[..16 * i], row, ReadCells(rest, flags, 16 * i + 16));
        assert inUse[..16 * i + 16] == inUse[..16 * i] + row;
      } else {
        UnusedCells(inUse, i);
        assert [] + RowBits(inUse, i + 1) == RowBits(inUse, i + 1);
        CellsSkipped(rest, flags, inUse, 16 * i, 16 * i + 16);
      }
    }
  }

  lemma CellsEnd(p: seq<bool>, bits: seq<bool>, flags: seq<bool>)
    requires |flags| == 16
    ensures Prepend(p, ReadCells(bits, flags, 256)) == Done(p, bits)
  {
    assert p + [] == p;
  }

  lemma {:induction false} FlagsBack(flags: seq<bool>, i: nat, more: seq<bool>)
    requires |flags| == 16 && i <= 16
    ensures ReadFlags(flags[i..] + more, flags[..i]) == ReadCells(more, flags, 0)
    decreases 16 - i
  {
    hide ReadCells;
    var bits := flags[i..] + more;
    if i == 16 {
      assert bits == more && flags[..16] == flags;
    } else {
      assert bits[1..] == flags[i + 1..] + more && flags[..i] + [bits[0]] == flags[..i + 1];
      FlagsBack(flags, i + 1, more);
    }
  }

  /** The decoder reads back the table that was written. */
  lemma MapRoundTrip(inUse: seq<bool>, more: seq<bool>)
    requires |inUse| == 256
    ensures ReadMap(MapBits(inUse) + more) == Done(inUse, more)
  {
    hide RowUsed, RowBits, ReadCells, ReadFlags;
    var flags, rest := Flags(inUse), RowBits(inUse, 0) + more;
    Associate(flags, RowBits(inUse, 0), more);
    assert flags[0..] == flags && flags[..0] == [];
    FlagsBack(flags, 0, rest);
    RowsRoundTrip(inUse, 0, more);
    PrependPrepend([], [], ReadCells(rest, flags, 0));
    assert inUse[..16 * 0] == [];
  }

  lemma {:induction false} RowBitsLength(inUse: seq<bool>, i: nat)
    requires |inUse| == 256 && i <= 16
    ensures |RowBits(inUse, i)| <= 16 * (16 - i)
    decreases 16 - i
  {
    if i < 16 {
      RowBitsLength(inUse, i + 1);
    }
  }

  // Writing it.

  /** One bit. */
  method WriteBit(w: Writer, b: bool)
    requires w.Valid() && |w.Written()| <= 8 * w.zbits.Length
    modifies w, w.zbits
    ensures w.Valid() && w.Written() == old(w.Written()) + [b]
  {
    OneBit(b);
    if b { w.W(1, 1); } else { w.W(1, 0); }
  }

  lemma OneBit(b: bool)
    ensures BitsOf(1, if b then 1 else 0) == [b] && Pow2(1) == 2
  {
    assert BitsOf(0, 0) == [];
  }

  lemma FirstBits(s: seq<bool>, bits: seq<bool>, j: nat)
    requires j < |bits|
    ensures s + bits[..j + 1] == s + bits[..j] + [bits[j]]
  {
  }

  /** A row of bits, one after the other. */
  method WriteRow(w: Writer, inUse: array<bool>, i: nat)
    requires w.Valid() && inUse.Length == 256 && i < 16 && inUse as object != w.zbits
    requires |w.Written()| + 16 <= 8 * w.zbits.Length
    modifies w, w.zbits
    ensures w.Valid() && w.Written() == old(w.Written()) + inUse[16 * i..16 * i + 16]
  {
    ghost var s, row := w.Written(), inUse[16 * i..16 * i + 16];
    var j := 0;
    assert s + row[..0] == s;
    while j < 16
      invariant 0 <= j <= 16 && w.Valid() && w.Written() == s + row[..j]
    {
      FirstBits(s, row, j);
      WriteBit(w, inUse[i * 16 + j]);
      j := j + 1;
    }
    assert row[..16] == row;
  }

  /** inUse16. */
  method FindRows(inUse: array<bool>) returns (inUse16: array<bool>)
    requires inUse.Length == 256
    ensures fresh(inUse16) && inUse16.Length == 16 && inUse16[..] == Flags(inUse[..])
  {
    inUse16 := new bool[16];
    var i := 0;
    while i < 16
      invariant 0 <= i <= 16 && forall k :: 0 <= k < i ==> inUse16[k] == RowUsed(inUse[..], k)
    {
      inUse16[i] := false;
      var j := 0;
      while j < 16
        invariant 0 <= j <= 16 && forall k :: 0 <= k < i ==> inUse16[k] == RowUsed(inUse[..], k)
        invariant inUse16[i] <==> true in inUse[16 * i..16 * i + j]
      {
        assert inUse[16 * i..16 * i + (j + 1)] == inUse[16 * i..16 * i + j] + [inUse[16 * i + j]];
        if inUse[i * 16 + j] { inUse16[i] := true; }
        j := j + 1;
      }
      assert inUse[..][16 * i..16 * i + 16] == inUse[16 * i..16 * i + 16];
      i := i + 1;
    }
  }

  lemma RowBitsNext(s: seq<bool>, inUse: seq<bool>, i: nat)
    requires |inUse| == 256 && i < 16
    ensures s + RowBits(inUse, i) == s + (if RowUsed(inUse, i) then inUse[16 * i..16 * i + 16] else []) + RowBits(inUse, i + 1)
    ensures |RowBits(inUse, i)| == (if RowUsed(inUse, i) then 16 else 0) + |RowBits(inUse, i + 1)|
  {
  }

  /** The flags of the rows. */
  method WriteFlags(w: Writer, inUse16: array<bool>)
    requires w.Valid() && inUse16.Length == 16 && inUse16 as object != w.zbits && |w.Written()| + 16 <= 8 * w.zbits.Length
    modifies w, w.zbits
    ensures w.Valid() && w.Written() == old(w.Written()) + inUse16[..]
  {
    hide *;
    ghost var flags, s := inUse16[..], w.Written();
    var i := 0;
    assert s + flags[..0] == s;
    while i < 16
      invariant 0 <= i <= 16 && w.Valid() && w.Written() == s + flags[..i] && inUse16[..] == flags
    {
      FirstBits(s, flags, i);
      WriteBit(w, inUse16[i]);
      i := i + 1;
    }
    assert flags[..16] == flags;
  }

  /** The rows that are used. */
  method WriteRows(w: Writer, inUse16: array<bool>, inUse: array<bool>)
    requires w.Valid() && inUse16.Length == 16 && inUse.Length == 256 && inUse16[..] == Flags(inUse[..])
    requires inUse16 as object != w.zbits && inUse as object != w.zbits && |w.Written()| + |RowBits(inUse[..], 0)| <= 8 * w.zbits.Length
    modifies w, w.zbits
    ensures w.Valid() && w.Written() == old(w.Written()) + RowBits(inUse[..], 0)
  {
    hide RowUsed, RowBits;
    ghost var used, flags := inUse[..], inUse16[..];
    ghost var full := w.Written() + RowBits(used, 0);
    var i := 0;
    while i < 16
      invariant 0 <= i <= 16 && w.Valid() && w.Written() + RowBits(used, i) == full
      invariant inUse16[..] == flags && inUse[..] == used
    {
      RowBitsNext(w.Written(), used, i);
      assert inUse16[i] == flags[i];
      if inUse16[i] {
        WriteRow(w, inUse, i);
        assert inUse[16 * i..16 * i + 16] == used[16 * i..16 * i + 16];
      } else {
        assert w.Written() + [] == w.Written();
      }
      i := i + 1;
    }
    NoRowsLeft(w.Written(), used);
  }

  /** Transmit the mapping table. */
  method WriteMap(w: Writer, inUse: array<bool>)
    requires w.Valid() && inUse.Length == 256 && inUse as object != w.zbits
    requires |w.Written()| + |MapBits(inUse[..])| <= 8 * w.zbits.Length
    modifies w, w.zbits
    ensures w.Valid() && w.Written() == old(w.Written()) + MapBits(inUse[..])
  {
    hide *;
    ghost var used, s := inUse[..], w.Written();
    MapBitsIs(used);
    var inUse16 := FindRows(inUse);
    WriteFlags(w, inUse16);
    WriteRows(w, inUse16, inUse);
    Associate(s, Flags(used), RowBits(used, 0));
  }

  lemma MapBitsIs(inUse: seq<bool>)
    requires |inUse| == 256
    ensures |Flags(inUse)| == 16 && MapBits(inUse) == Flags(inUse) + RowBits(inUse, 0)
  {
  }

  lemma NoRowsLeft(s: seq<bool>, inUse: seq<bool>)
    requires |inUse| == 256
    ensures s + RowBits(inUse, 16) == s
  {
  }

  // Reading it.

  /** Where receiving the mapping table can be interrupted, with the locals that are saved there: BZ_X_MAPPING_1 and 2. */
  datatype MapAt = Mapping1(i: nat) | Mapping2(i: nat, j: nat)

  class Maps {
    const inUse16: array<bool>
    const inUse: array<bool>
    const seqToUnseq: array<byte>
    var nInUse: nat
    ghost const Repr: set<object>

    ghost predicate Valid()
    {
      && inUse16.Length == 16 && inUse.Length == 256 && seqToUnseq.Length == 256
      && Repr == {this, inUse16, inUse, seqToUnseq} && inUse16 != inUse
      && inUse16 as object != seqToUnseq && inUse as object != seqToUnseq
    }

    constructor ()
      ensures Valid() && fresh(Repr)
    {
      inUse16 := new bool[16];
      inUse := new bool[256];
      seqToUnseq := new byte[256];
      nInUse := 0;
      Repr := {this, inUse16, inUse, seqToUnseq};
    }

    /** At label at: in BZ_X_MAPPING_2 row i is being received, and all cells from its cell j on are cleared. */
    ghost predicate Stands(at: MapAt)
      requires Valid()
      reads this, inUse16, inUse
    {
      match at
      case Mapping1(i) => i < 16
      case Mapping2(i, j) => i < 16 && j < 16 && inUse16[i] && forall m :: 16 * i + j <= m < 256 ==> !inUse[m]
    }

    /** What reading on from label at gives. */
    ghost function Rest(at: MapAt, bits: seq<bool>): (rest: Read<seq<bool>>)
      requires Valid() && Stands(at)
      reads this, inUse16, inUse
      ensures rest.Done? ==> |rest.value| == 256
    {
      match at
      case Mapping1(i) => ReadFlags(bits, inUse16[..i])
      case Mapping2(i, j) => Prepend(inUse[..16 * i + j], ReadCells(bits, inUse16[..], 16 * i + j))
    }

    /** All rows from row i on up to the next one whose flag is set are passed over. */
    method NextRow(i0: nat, ghost bits: seq<bool>) returns (i: nat)
      requires Valid() && i0 <= 16 && forall m :: 16 * i0 <= m < 256 ==> !inUse[m]
      ensures i0 <= i <= 16 && (i < 16 ==> Stands(Mapping2(i, 0)))
      ensures Prepend(inUse[..16 * i0], ReadCells(bits, inUse16[..], 16 * i0)) == Prepend(inUse[..16 * i], ReadCells(bits, inUse16[..], 16 * i))
    {
      i := i0;
      while i < 16 && !inUse16[i]
        invariant i0 <= i <= 16 && forall m :: 16 * i0 <= m < 16 * i ==> !inUse16[m / 16]
      {
        i := i + 1;
      }
      CellsSkipped(bits, inUse16[..], inUse[..], 16 * i0, 16 * i);
    }

    /** The flags from flag i on. */
    method ReceiveFlags(r: Reader, i0: nat, ghost more: seq<bool>) returns (st: Status, i: nat)
      requires Valid() && r.Valid() && r !in Repr && i0 < 16
      modifies r, inUse16
      ensures r.Valid() && |r.Unread()| <= |old(r.Unread())|
      ensures st == Ok || (st == Waiting && r.input == [] && i < 16 && ReadFlags(r.Unread(), inUse16[..i]) == Stop(NeedInput))
      ensures old(ReadFlags(r.Ahead(more), inUse16[..i0]))
           == if st == Ok then ReadCells(r.Ahead(more), inUse16[..], 0) else ReadFlags(r.Ahead(more), inUse16[..i])
      ensures st == Ok ==> |r.Unread()| < |old(r.Unread())|
    {
      hide *;
      i := i0;
      MapsIs();
      while i < 16
        invariant i0 <= i <= 16 && r.Valid() && inUse16.Length == 16
        invariant |r.Unread()| == |old(r.Unread())| - (i - i0)
        invariant old(ReadFlags(r.Ahead(more), inUse16[..i0])) == ReadFlags(r.Ahead(more), inUse16[..i])
      {
        ghost var bits, flags := r.Ahead(more), inUse16[..i];
        FlagsNext(bits, flags);
        FlagsNext(r.Unread(), flags);
        var ok, uc := r.GetBit(more);
        if !ok { return Waiting, i; }
        inUse16[i] := uc;
        assert inUse16[..i + 1] == flags + [uc];
        i := i + 1;
      }
      assert inUse16[..16] == inUse16[..];
      FlagsNext(r.Ahead(more), inUse16[..16]);
      st := Ok;
    }

    lemma MapsIs()
      ensures Valid() <==> inUse16.Length == 16 && inUse.Length == 256 && seqToUnseq.Length == 256
                           && Repr == {this, inUse16, inUse, seqToUnseq} && inUse16 != inUse
                           && inUse16 as object != seqToUnseq && inUse as object != seqToUnseq
    {
    }

    lemma StandsIs(at: MapAt, bits: seq<bool>)
      requires Valid()
      ensures at.Mapping1? ==> (Stands(at) <==> at.i < 16) && (Stands(at) ==> Rest(at, bits) == ReadFlags(bits, inUse16[..at.i]))
      ensures at.Mapping2? ==>
                && (Stands(at) <==> at.i < 16 && at.j < 16 && inUse16[at.i] && forall m :: 16 * at.i + at.j <= m < 256 ==> !inUse[m])
                && (Stands(at) ==> Rest(at, bits) == Prepend(inUse[..16 * at.i + at.j], ReadCells(bits, inUse16[..], 16 * at.i + at.j)))
    {
    }

    /** The rest of row i. */
    method ReceiveRow(r: Reader, i: nat, j0: nat, ghost more: seq<bool>) returns (st: Status, j: nat)
      requires Valid() && r.Valid() && r !in Repr && Stands(Mapping2(i, j0))
      modifies r, inUse
      ensures r.Valid() && |r.Unread()| <= |old(r.Unread())|
      ensures st == Ok || (st == Waiting && r.input == [] && Stands(Mapping2(i, j)) && Rest(Mapping2(i, j), r.Unread()) == Stop(NeedInput)
                           && old(Rest(Mapping2(i, j0), r.Ahead(more))) == Rest(Mapping2(i, j), r.Ahead(more)))
      ensures st == Ok ==>
                && i < 16 && |r.Unread()| < |old(r.Unread())| && (forall m :: 16 * i + 16 <= m < 256 ==> !inUse[m])
                && old(Rest(Mapping2(i, j0), r.Ahead(more))) == Prepend(inUse[..16 * i + 16], ReadCells(r.Ahead(more), inUse16[..], 16 * i + 16))
    {
      hide *;
      MapsIs();
      StandsIs(Mapping2(i, j0), r.Ahead(more));
      j := j0;
      while j < 16
        invariant j0 <= j <= 16 && r.Valid() && inUse.Length == 256
        invariant |r.Unread()| == |old(r.Unread())| - (j - j0)
        invariant forall m :: 16 * i + j <= m < 256 ==> !inUse[m]
        invariant old(Rest(Mapping2(i, j0), r.Ahead(more))) == Prepend(inUse[..16 * i + j], ReadCells(r.Ahead(more), inUse16[..], 16 * i + j))
      {
        ghost var bits, flags, k, p := r.Ahead(more), inUse16[..], 16 * i + j, inUse[..16 * i + j];
        CellsNext(p, bits, flags, k, i);
        CellsNext(p, r.Unread(), flags, k, i);
        StandsIs(Mapping2(i, j), bits);
        var ok, uc := r.GetBit(more);
        if !ok {
          StandsIs(Mapping2(i, j), r.Unread());
          return Waiting, j;
        }
        if uc { inUse[i * 16 + j] := true; }
        assert inUse[..k + 1] == p + [uc];
        j := j + 1;
      }
      st := Ok;
    }

    method ClearRows()
      requires Valid()
      modifies inUse
      ensures forall m :: 0 <= m < 256 ==> !inUse[m]
    {
      for k := 0 to 256
        invariant forall m :: 0 <= m < k ==> !inUse[m]
      {
        inUse[k] := false;
      }
    }

    /** Receive the mapping table. */
    method Receive(r: Reader, at0: MapAt, ghost more: seq<bool>) returns (st: Status, at: MapAt)
      requires Valid() && r.Valid() && r !in Repr && Stands(at0)
      modifies r, inUse16, inUse
      ensures r.Valid() && !st.Failed? && |r.Unread()| <= |old(r.Unread())| && (st == Ok ==> |r.Unread()| < |old(r.Unread())|)
      ensures st == Waiting ==> Stands(at) && r.input == []
      ensures Resumes(st, inUse[..], r.Ahead(more), old(Rest(at0, r.Ahead(more))),
                      if st == Waiting then Rest(at, r.Ahead(more)) else Stop(NeedInput),
                      if st == Waiting then Rest(at, r.Unread()) else Stop(NeedInput))
    {
      hide *;
      MapsIs();
      at := at0;
      ghost var was := Rest(at0, r.Ahead(more));
      StandsIs(at0, r.Ahead(more));
      var i;
      if at.Mapping1? {
        st, i := ReceiveFlags(r, at.i, more);
        if st != Ok {
          at := Mapping1(i);
          StandsIs(at, r.Ahead(more));
          StandsIs(at, r.Unread());
          ResumesIs(st, inUse[..], r.Ahead(more), was, Rest(at, r.Ahead(more)), Rest(at, r.Unread()));
          return;
        }
        ClearRows();
        assert inUse[..16 * 0] == [];
        PrependPrepend([], [], ReadCells(r.Ahead(more), inUse16[..], 0));
        i := NextRow(0, r.Ahead(more));
      } else {
        i := at.i;
      }
      var j: nat := if at.Mapping1? then 0 else at.j;
      StandsIs(Mapping2(i, j), r.Ahead(more));
      while i < 16
        invariant i <= 16 && r.Valid() && (i < 16 ==> Stands(Mapping2(i, j)) && was == Rest(Mapping2(i, j), r.Ahead(more)))
        invariant i == 16 ==> was == Prepend(inUse[..256], ReadCells(r.Ahead(more), inUse16[..], 256)) && |r.Unread()| < |old(r.Unread())|
        invariant |r.Unread()| <= |old(r.Unread())|
      {
        st, j := ReceiveRow(r, i, j, more);
        if st != Ok {
          at := Mapping2(i, j);
          ResumesIs(st, inUse[..], r.Ahead(more), was, Rest(at, r.Ahead(more)), Rest(at, r.Unread()));
          return;
        }
        i := NextRow(i + 1, r.Ahead(more));
        j := 0;
        StandsIs(Mapping2(i, 0), r.Ahead(more));
      }
      assert inUse[..256] == inUse[..];
      CellsEnd(inUse[..], r.Ahead(more), inUse16[..]);
      st := Ok;
      ResumesIs<seq<bool>>(st, inUse[..], r.Ahead(more), was, Stop(NeedInput), Stop(NeedInput));
    }
  }

  lemma FlagsNext(bits: seq<bool>, flags: seq<bool>)
    requires |flags| <= 16
    ensures |flags| == 16 ==> ReadFlags(bits, flags) == ReadCells(bits, flags, 0)
    ensures |flags| < 16 && bits == [] ==> ReadFlags(bits, flags) == Stop(NeedInput)
    ensures |flags| < 16 && bits != [] ==> ReadFlags(bits, flags) == ReadFlags(bits[1..], flags + [bits[0]])
  {
  }

  lemma CellsNext(p: seq<bool>, bits: seq<bool>, flags: seq<bool>, k: nat, i: nat)
    requires |flags| == 16 && k < 256 && 16 * i <= k < 16 * i + 16 && flags[i]
    ensures bits == [] ==> Prepend(p, ReadCells(bits, flags, k)) == Stop(NeedInput)
    ensures bits != [] ==> Prepend(p, ReadCells(bits, flags, k)) == Prepend(p + [bits[0]], ReadCells(bits[1..], flags, k + 1))
  {
    if bits != [] {
      PrependPrepend(p, [bits[0]], ReadCells(bits[1..], flags, k + 1));
    }
  }
}
