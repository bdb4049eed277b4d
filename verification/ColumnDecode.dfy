/**
 The decoding loop of BZ2_decompress (dep/bzip2/decompress.c): symbols are fetched group by group, runs are
 counted and written out, other symbols go through the two-level move-to-front list. It can be interrupted at
 every bit.
 */
module ColumnDecode {
  import opened Bits
  import opened BitReader
  import opened CountingOrder
  import opened HuffmanCode
  import opened HuffmanDecode
  import opened MoveToFront
  import opened MtfRows
  import opened SymbolStream
  import opened Selectors
  import opened BlockTables

  /** A symbol of group groupNo is being fetched; groupPos more belong to the group. */
  datatype Fetch = Fetch(groupNo: nat, groupPos: nat, at: SymbolAt)

  /**
   Where the decoding loop can be interrupted, with the locals that are saved there. GET_MTF_VAL stands in three places, each with
   two labels: BZ_X_MTF_1 and 2, within a run 3 and 4, and behind another symbol 5 and 6.
   */
  datatype ColumnAt = First(f: Fetch) | InRun(f: Fetch, es: int, N: nat) | Next(f: Fetch)

  // Runs.

  /** How often each character occurs. */
  ghost function Freqs(col: seq<byte>): (f: seq<int>)
    ensures |f| == 256
  {
    seq(256, k requires 0 <= k < 256 => Count(col, k))
  }

  lemma FreqsOne(col: seq<byte>, uc: byte)
    ensures Freqs(col + [uc]) == Freqs(col)[uc := Freqs(col)[uc] + 1]
  {
    assert (col + [uc])[..|col|] == col;
  }

  lemma {:induction false} FreqsRun(col: seq<byte>, uc: byte, n: nat)
    ensures Freqs(col + Repeat(uc, n)) == Freqs(col)[uc := Freqs(col)[uc] + n]
  {
    if n == 0 {
      assert col + Repeat(uc, 0) == col;
    } else {
      FreqsRun(col, uc, n - 1);
      FreqsOne(col + Repeat(uc, n - 1), uc);
      assert col + Repeat(uc, n) == col + Repeat(uc, n - 1) + [uc];
    }
  }

  /** The cells hold the column. */
  ghost predicate InCells(cells: seq<nat>, col: seq<byte>) {
    |col| <= |cells| && forall i :: 0 <= i < |col| ==> cells[i] == col[i]
  }

  lemma OneCell(cells: seq<nat>, col: seq<byte>, uc: byte)
    requires InCells(cells, col) && |col| < |cells|
    ensures InCells(cells[|col| := uc as nat], col + [uc])
  {
  }

  lemma RunOneMore(col: seq<byte>, uc: byte, k: nat)
    requires k >= 1
    ensures col + Repeat(uc, k - 1) + [uc] == col + Repeat(uc, k)
  {
  }

  /** The first n elements of the list are numbers below n. */
  ghost predicate AllLow(yy: seq<byte>, n: nat) {
    n <= |yy| && forall i :: 0 <= i < n ==> yy[i] < n
  }

  lemma LowStays(yy: seq<byte>, n: nat, j: nat)
    requires AllLow(yy, n) && j < n
    ensures yy[j] < n && AllLow(ToFront(yy, j), n)
  {
  }

  lemma LowStart(yy: seq<byte>, n: nat)
    requires |yy| == 256 && n <= 256 && forall v :: 0 <= v < 256 ==> yy[v] == v
    ensures AllLow(yy, n) && yy == FirstList(256)
  {
  }

  lemma EmptyColumn(cells: seq<nat>, unzftab: seq<int>)
    requires |unzftab| == 256 && forall k :: 0 <= k < 256 ==> unzftab[k] == 0
    ensures InCells(cells, []) && unzftab == Freqs([])
  {
  }

  lemma KnownCharacter(unseq: seq<byte>, seqToUnseq: seq<byte>, n: nat, k: nat)
    requires n <= |seqToUnseq| && unseq == seqToUnseq[..n] && k < n
    ensures At(unseq, k) == seqToUnseq[k]
  {
  }

  // One symbol, as the specification sees it.

  lemma RunStart(yy: seq<byte>, col: seq<byte>, sym: nat, c: Coded)
    requires WellCoded(c) && |yy| == 256 && sym <= 1
    ensures Step(Mtf(yy, col, 0, 0), sym, c.eob, c.unseq, c.max) == Step(Mtf(yy, col, -1, 1), sym, c.eob, c.unseq, c.max)
  {
  }

  lemma RunStep(yy: seq<byte>, col: seq<byte>, es: int, n: nat, sym: nat, c: Coded)
    requires WellCoded(c) && |yy| == 256 && sym <= 1 && n >= 1
    ensures Step(Mtf(yy, col, es, n), sym, c.eob, c.unseq, c.max)
         == if n >= 2 * 1024 * 1024 then Bad else More(Mtf(yy, col, es + (if sym == 0 then n else 2 * n), 2 * n))
  {
  }

  lemma RunWritten(yy: seq<byte>, col: seq<byte>, es: nat, n: nat, sym: nat, c: Coded)
    requires WellCoded(c) && |yy| == 256 && 1 < sym <= c.eob && n >= 1
    ensures Step(Mtf(yy, col, es, n), sym, c.eob, c.unseq, c.max)
         == if |col| + es + 1 > c.max then Bad
            else Step(Mtf(yy, col + Repeat(At(c.unseq, yy[0]), es + 1), 0, 0), sym, c.eob, c.unseq, c.max)
  {
  }

  lemma FrontTaken(yy: seq<byte>, col: seq<byte>, sym: nat, c: Coded)
    requires WellCoded(c) && |yy| == 256 && 1 < sym < c.eob && |col| <= c.max
    ensures Step(Mtf(yy, col, 0, 0), sym, c.eob, c.unseq, c.max)
         == if |col| >= c.max then Bad else More(Mtf(ToFront(yy, sym - 1), col + [At(c.unseq, yy[sym - 1])], 0, 0))
  {
  }

  lemma BlockEnds(yy: seq<byte>, col: seq<byte>, c: Coded)
    requires WellCoded(c) && |yy| == 256 && |col| <= c.max && c.eob >= 2
    ensures Step(Mtf(yy, col, 0, 0), c.eob, c.eob, c.unseq, c.max) == End(col)
  {
  }

  // Fetching symbols.

  ghost predicate ProperFetch(h: BlockTables, c: Coded, f: Fetch)
    requires h.Valid()
    reads h.Repr
  {
    && f.groupNo < h.nSelectors && f.groupPos < BZ_G_SIZE && h.Fitting(c) && c.sel[f.groupNo] < |c.tables|
    && SymbolStands(c.tables[c.sel[f.groupNo]], h.codes.minLens[c.sel[f.groupNo]], f.at)
    && (f.at.Further? ==> f.at.zn >= 1 && f.at.zvec == Value(Taken(f.at)))
  }

  /** What fetching the symbol will give. */
  ghost function Awaited(c: Coded, f: Fetch, bits: seq<bool>): Read<nat> {
    if f.groupNo < |c.sel| && c.sel[f.groupNo] < |c.tables| && (f.at.Further? ==> f.at.zn >= 1)
    then ReadSymbol(c.tables[c.sel[f.groupNo]], Taken(f.at) + bits)
    else Stop(DataError)
  }

  lemma FittingParts(h: BlockTables, c: Coded)
    requires h.Valid() && h.Fitting(c)
    ensures WellCoded(c) && Coding(c.tables, c.sel, c.eob + 1) && c.eob + 1 <= 258 && |c.tables| <= 6
    ensures h.sels.selector.Length == BZ_MAX_SELECTORS && h.nSelectors <= BZ_MAX_SELECTORS && c.sel == h.sels.selector[..h.nSelectors]
    ensures 1 <= h.maps.nInUse <= 256 && c.eob == h.maps.nInUse + 1 && h.maps.seqToUnseq.Length == 256
    ensures c.unseq == h.maps.seqToUnseq[..h.maps.nInUse]
    ensures |h.codes.limit| == |h.codes.base| == |h.codes.perm| == 6 && h.codes.minLens.Length == 6
  {
  }

  lemma GroupTables(h: BlockTables, c: Coded, g: nat)
    requires h.Valid() && h.Fitting(c) && g < h.nSelectors
    ensures g < h.sels.selector.Length && g < |c.sel| && c.sel[g] == h.sels.selector[g] < |c.tables| <= 6
    ensures |h.codes.limit| == |h.codes.base| == |h.codes.perm| == 6 && h.codes.minLens.Length == 6
    ensures |c.tables[c.sel[g]]| == c.eob + 1 <= 258
    ensures Decoding(c.tables[c.sel[g]], h.codes.minLens[c.sel[g]], h.codes.limit[c.sel[g]][..], h.codes.base[c.sel[g]][..],
                     h.codes.perm[c.sel[g]][..])
  {
    hide Decoding;
    assert h.sels.selector[..h.nSelectors][g] == h.sels.selector[g];
  }

  lemma ProperFetchIs(h: BlockTables, c: Coded, f: Fetch)
    requires h.Valid()
    ensures ProperFetch(h, c, f) <==>
              && f.groupNo < h.nSelectors && f.groupPos < BZ_G_SIZE && h.Fitting(c) && f.groupNo < |c.sel| && c.sel[f.groupNo] < |c.tables|
              && h.codes.Valid() && SymbolStands(c.tables[c.sel[f.groupNo]], h.codes.minLens[c.sel[f.groupNo]], f.at)
              && (f.at.Further? ==> f.at.zn >= 1 && f.at.zvec == Value(Taken(f.at)))
  {
  }

  lemma AwaitedIs(c: Coded, f: Fetch, bits: seq<bool>)
    requires f.groupNo < |c.sel| && c.sel[f.groupNo] < |c.tables| && (f.at.Further? ==> f.at.zn >= 1)
    ensures Awaited(c, f, bits) == ReadSymbol(c.tables[c.sel[f.groupNo]], Taken(f.at) + bits)
  {
  }

  /** The rest of GET_MTF_VAL. */
  method FetchSymbol(r: Reader, h: BlockTables, f0: Fetch, ghost c: Coded, ghost more: seq<bool>)
    returns (st: Status, sym: nat, f: Fetch)
    requires h.Valid() && r.Valid() && r !in h.Repr && ProperFetch(h, c, f0)
    modifies r
    ensures r.Valid() && |r.Unread()| <= |old(r.Unread())| && (st == Ok ==> sym <= c.eob && |r.Unread()| < |old(r.Unread())|)
    ensures st == Waiting ==> r.input == [] && ProperFetch(h, c, f)
    ensures f.groupNo == f0.groupNo && f.groupPos == f0.groupPos
    ensures Resumes(st, sym, r.Ahead(more), Awaited(c, f0, old(r.Ahead(more))),
                    if st == Waiting then Awaited(c, f, r.Ahead(more)) else Stop(NeedInput),
                    if st == Waiting then Awaited(c, f, r.Unread()) else Stop(NeedInput))
  {
    assert BZ_MAX_ALPHA_SIZE == 258;
    hide *;
    ProperFetchIs(h, c, f0);
    GroupTables(h, c, f0.groupNo);
    AwaitedIs(c, f0, r.Ahead(more));
    var gSel := h.sels.selector[f0.groupNo];
    var at;
    st, sym, at := GetSymbol(r, h.codes.limit[gSel], h.codes.base[gSel], h.codes.perm[gSel], h.codes.minLens[gSel], f0.at,
                             c.tables[gSel], more);
    f := f0.(at := at);
    ProperFetchIs(h, c, f);
    if st == Waiting {
      SymbolStandsIs(c.tables[gSel], h.codes.minLens[gSel], at);
      AwaitedIs(c, f, r.Ahead(more));
      AwaitedIs(c, f, r.Unread());
    }
  }

  lemma ReadColumnIs(bits: seq<bool>, c: Coded, at: Place, s: Mtf)
    requires WellCoded(c) && Proper(at) && |s.yy| == 256
    ensures Advance(at).group >= |c.sel| ==> ReadColumn(bits, c, at, s) == Stop(DataError)
    ensures 0 <= Advance(at).group < |c.sel| ==>
              ReadColumn(bits, c, at, s) == Fetched(Awaited(c, Fetch(Advance(at).group, Advance(at).left, Whole), bits), c, Advance(at), s)
  {
    hide ReadSymbol;
    assert [] + bits == bits;
  }

  /** GET_MTF_VAL up to its first label: the change of groups. */
  method BeginSymbol(h: BlockTables, groupNo0: int, groupPos0: nat, ghost c: Coded, ghost s: Mtf, ghost bits: seq<bool>)
    returns (ok: bool, f: Fetch)
    requires h.Valid() && h.Fitting(c) && WellCoded(c) && |s.yy| == 256
    requires Proper(Place(groupNo0, groupPos0)) && groupNo0 < h.nSelectors
    ensures !ok ==> ReadColumn(bits, c, Place(groupNo0, groupPos0), s) == Stop(DataError)
    ensures ok ==>
              && ProperFetch(h, c, f) && Proper(Place(f.groupNo, f.groupPos))
              && ReadColumn(bits, c, Place(groupNo0, groupPos0), s) == Fetched(Awaited(c, f, bits), c, Place(f.groupNo, f.groupPos), s)
  {
    hide SymbolStands, ReadColumn, Fetched, Awaited, Decoding;
    FittingParts(h, c);
    ReadColumnIs(bits, c, Place(groupNo0, groupPos0), s);
    var groupNo, groupPos := groupNo0, groupPos0;
    f := Fetch(0, 0, Whole);
    if groupPos == 0 {
      groupNo := groupNo + 1;
      if groupNo >= h.nSelectors { return false, f; }
      groupPos := BZ_G_SIZE;
    }
    groupPos := groupPos - 1;
    ok, f := true, Fetch(groupNo, groupPos, Whole);
    GroupTables(h, c, groupNo);
    SymbolStandsIs(c.tables[c.sel[groupNo]], h.codes.minLens[c.sel[groupNo]], Whole);
  }

  lemma StartPlace()
    ensures Proper(Place(-1, 0))
  {
  }

  /** How dealing with a symbol went on: another symbol is being fetched, the block is complete, or it is corrupt. */
  datatype Phase = Going(at: ColumnAt) | Ended | Broken

  class ColumnDecoder {
    const rows: Rows
    const unzftab: array<int>
    /** The low halves or the whole cells: ll16 or tt. */
    const cells: array<nat>
    var nblock: nat
    ghost var col: seq<byte>
    ghost const Repr: set<object>

    ghost predicate Valid()
    {
      && unzftab.Length == 256 && rows.mtfa.Length == 4096 && rows.mtfbase.Length == 16
      && Repr == {this, rows, rows.mtfa, rows.mtfbase, unzftab, cells}
      && rows as object != this
      && unzftab != rows.mtfbase && unzftab as object != rows.mtfa && unzftab as object != cells
      && cells as object != rows.mtfa && cells as object != rows.mtfbase
    }

    constructor (size: nat)
      ensures Valid() && fresh(Repr) && cells.Length == size
    {
      var r := new Rows();
      rows := r;
      var u, k := new int[256], new nat[size];
      unzftab, cells := u, k;
      nblock, col := 0, [];
      Repr := {this, r, r.mtfa, r.mtfbase, u, k};
    }

    lemma Shape()
      requires Valid()
      ensures unzftab.Length == 256 && rows.mtfa.Length == 4096 && rows.mtfbase.Length == 16
      ensures this in Repr && rows in Repr && rows.mtfa in Repr && rows.mtfbase in Repr && unzftab in Repr && cells in Repr
      ensures unzftab != rows.mtfbase && unzftab as object != rows.mtfa && unzftab as object != cells && rows as object != this
      ensures cells as object != rows.mtfa && cells as object != rows.mtfbase
    {
    }

    /** The column received so far is in the cells and counted, and the list is one of numbers in use. */
    ghost predicate Holds(h: BlockTables, c: Coded)
      requires Valid() && h.Valid()
      reads Repr, h.Repr
    {
      && h.Fitting(c) && rows.Valid() && AllLow(rows.List(), h.maps.nInUse)
      && nblock == |col| <= c.max <= cells.Length && InCells(cells[..], col) && unzftab[..] == Freqs(col)
    }

    lemma HoldsIs(h: BlockTables, c: Coded)
      requires Valid() && h.Valid()
      ensures Holds(h, c) <==> h.Fitting(c) && rows.Valid() && AllLow(rows.List(), h.maps.nInUse) && nblock == |col| <= c.max <= cells.Length
                               && InCells(cells[..], col) && unzftab[..] == Freqs(col)
    {
    }

    /** At label at. */
    ghost predicate Stands(at: ColumnAt, h: BlockTables, c: Coded)
      requires Valid() && h.Valid()
      reads Repr, h.Repr
    {
      && Holds(h, c) && ProperFetch(h, c, at.f) && Proper(Place(at.f.groupNo, at.f.groupPos))
      && (at.InRun? ==> 2 <= at.N <= 0x40_0000 && 0 <= at.es <= 2 * at.N - 3)
    }

    /** The specification's state: within a run, its digits so far. */
    ghost function Now(at: ColumnAt): (s: Mtf)
      requires Valid() && rows.Valid()
      reads Repr
      ensures |s.yy| == 256
    {
      if at.InRun? then Mtf(rows.List(), col, at.es, at.N) else Mtf(rows.List(), col, 0, 0)
    }

    /** What reading on from label at gives. */
    ghost function Rest(at: ColumnAt, h: BlockTables, c: Coded, bits: seq<bool>): Read<seq<byte>>
      requires Valid() && h.Valid() && Stands(at, h, c)
      reads Repr, h.Repr
    {
      FittingParts(h, c);
      Fetched(Awaited(c, at.f, bits), c, Place(at.f.groupNo, at.f.groupPos), Now(at))
    }

    lemma StandsIs(at: ColumnAt, h: BlockTables, c: Coded, bits: seq<bool>)
      requires Valid() && h.Valid()
      ensures Stands(at, h, c) <==>
                && Holds(h, c) && ProperFetch(h, c, at.f) && Proper(Place(at.f.groupNo, at.f.groupPos))
                && (at.InRun? ==> 2 <= at.N <= 0x40_0000 && 0 <= at.es <= 2 * at.N - 3)
      ensures Stands(at, h, c) ==>
                && WellCoded(c) && rows.Valid() && |Now(at).yy| == 256
                && Rest(at, h, c, bits) == Fetched(Awaited(c, at.f, bits), c, Place(at.f.groupNo, at.f.groupPos), Now(at))
    {
      if Holds(h, c) { FittingParts(h, c); }
    }

    lemma NowIs(at: ColumnAt)
      requires Valid() && rows.Valid()
      ensures Now(at) == if at.InRun? then Mtf(rows.List(), col, at.es, at.N) else Mtf(rows.List(), col, 0, 0)
      ensures |rows.List()| == 256
    {
    }

    /** es characters uc are counted and written, unless the block gets too large. */
    method PutRun(uc: byte, es0: nat, nblockMAX: nat)
      returns (ok: bool)
      requires Valid() && nblock == |col| <= nblockMAX <= cells.Length && InCells(cells[..], col) && unzftab[..] == Freqs(col)
      modifies this, cells, unzftab
      ensures ok == (|old(col)| + es0 <= nblockMAX)
      ensures ok ==> col == old(col) + Repeat(uc, es0) && nblock == |col| <= nblockMAX && InCells(cells[..], col) && unzftab[..] == Freqs(col)
    {
      hide *;
      Shape();
      ghost var col0, freqs := col, unzftab[..];
      FreqsRun(col, uc, es0);
      unzftab[uc] := unzftab[uc] + es0;
      assert unzftab[..] == freqs[uc := freqs[uc] + es0];
      var es := es0;
      assert col0 + Repeat(uc, 0) == col0;
      while es > 0
        modifies this, cells
        invariant 0 <= es <= es0 && nblock == |col| <= nblockMAX && InCells(cells[..], col)
        invariant col == col0 + Repeat(uc, es0 - es)
      {
        if nblock >= nblockMAX { return false; }
        OneCell(cells[..], col, uc);
        ghost var before := cells[..];
        cells[nblock] := uc;
        assert cells[..] == before[|col| := uc as nat];
        nblock := nblock + 1;
        es := es - 1;
        RunOneMore(col0, uc, es0 - es);
        col := col + [uc];
      }
      ok := true;
    }

    /** One character is written and counted. */
    method PutOne(uc: byte)
      requires Valid() && nblock == |col| < cells.Length && InCells(cells[..], col) && unzftab[..] == Freqs(col)
      modifies this, cells, unzftab
      ensures col == old(col) + [uc] && nblock == |col| && InCells(cells[..], col) && unzftab[..] == Freqs(col)
    {
      hide *;
      Shape();
      FreqsOne(col, uc);
      OneCell(cells[..], col, uc);
      ghost var before, freqs := cells[..], unzftab[..];
      unzftab[uc] := unzftab[uc] + 1;
      assert unzftab[..] == freqs[uc := freqs[uc] + 1];
      cells[nblock] := uc;
      assert cells[..] == before[nblock := uc as nat];
      nblock := nblock + 1;
      col := col + [uc];
    }

    // One symbol.

    /** Dealing with a symbol did what the specification says. */
    ghost predicate Follows(ph: Phase, h: BlockTables, c: Coded, spec: Read<seq<byte>>, bits: seq<bool>)
      requires Valid() && h.Valid()
      reads Repr, h.Repr
    {
      match ph
      case Going(at) => Stands(at, h, c) && spec == Rest(at, h, c, bits)
      case Ended => Holds(h, c) && spec == Done(col, bits)
      case Broken => spec == Stop(DataError)
    }

    lemma FollowsIs(ph: Phase, h: BlockTables, c: Coded, spec: Read<seq<byte>>, bits: seq<bool>)
      requires Valid() && h.Valid()
      ensures Follows(ph, h, c, spec, bits) <==>
                && (ph.Going? ==> Stands(ph.at, h, c) && spec == Rest(ph.at, h, c, bits))
                && (ph.Ended? ==> Holds(h, c) && spec == Done(col, bits)) && (ph.Broken? ==> spec == Stop(DataError))
    {
    }

    /** The next symbol is begun, within a run or not. */
    method Begin(h: BlockTables, f: Fetch, at0: ColumnAt, ghost c: Coded, ghost bits: seq<bool>) returns (ph: Phase)
      requires Valid() && h.Valid() && Repr !! h.Repr && Holds(h, c) && Proper(Place(f.groupNo, f.groupPos)) && f.groupNo < h.nSelectors
      requires at0.InRun? ==> 2 <= at0.N <= 0x40_0000 && 0 <= at0.es <= 2 * at0.N - 3
      ensures WellCoded(c) && !ph.Ended?
      ensures Follows(ph, h, c, ReadColumn(bits, c, Place(f.groupNo, f.groupPos), Now(at0)), bits)
    {
      hide *;
      HoldsIs(h, c);
      FittingParts(h, c);
      NowIs(at0);
      ghost var spec := ReadColumn(bits, c, Place(f.groupNo, f.groupPos), Now(at0));
      var ok, g := BeginSymbol(h, f.groupNo, f.groupPos, c, Now(at0), bits);
      ph := Broken;
      if ok {
        var at := at0.(f := g);
        NowIs(at);
        StandsIs(at, h, c, bits);
        ph := Going(at);
      }
      FollowsIs(ph, h, c, spec, bits);
    }

    /** A digit of a run is added up; its weight is kept from growing past the guard. */
    method Digit(h: BlockTables, f: Fetch, sym: nat, es0: int, N0: nat, ghost c: Coded, ghost bits: seq<bool>) returns (ph: Phase)
      requires Valid() && h.Valid() && Repr !! h.Repr && Holds(h, c) && Proper(Place(f.groupNo, f.groupPos)) && f.groupNo < h.nSelectors
      requires sym <= 1 && 1 <= N0 <= 0x40_0000 && -1 <= es0 <= 2 * N0 - 3 && WellCoded(c) && rows.Valid()
      ensures !ph.Ended?
      ensures Follows(ph, h, c, Continue(Step(Mtf(rows.List(), col, es0, N0), sym, c.eob, c.unseq, c.max), bits, c, Place(f.groupNo, f.groupPos)), bits)
    {
      hide *;
      HoldsIs(h, c);
      FittingParts(h, c);
      ghost var yy, at, o := rows.List(), Place(f.groupNo, f.groupPos), Step(Mtf(rows.List(), col, es0, N0), sym, c.eob, c.unseq, c.max);
      NowIs(First(f));
      RunStep(yy, col, es0, N0, sym, c);
      Continues(o, bits, c, at);
      if N0 >= 2 * 1024 * 1024 {
        FollowsIs(Broken, h, c, Continue(o, bits, c, at), bits);
        return Broken;
      }
      var es, N := es0, N0;
      if sym == 0 { es := es + (0 + 1) * N; } else if sym == 1 { es := es + (1 + 1) * N; }
      N := N * 2;
      NowIs(InRun(f, es, N));
      ph := Begin(h, f, InRun(f, es, N), c, bits);
    }

    /** The run is over: its es + 1 characters are written. */
    method WriteRun(h: BlockTables, es: nat, nblockMAX: nat, ghost c: Coded) returns (ok: bool)
      requires Valid() && h.Valid() && Repr !! h.Repr && Holds(h, c) && rows.Valid() && nblockMAX == c.max
      modifies this, cells, unzftab
      ensures ok == (|old(col)| + es + 1 <= c.max) && rows.Valid() && rows.List() == old(rows.List()) && |rows.List()| == 256
      ensures ok ==> Holds(h, c) && col == old(col) + Repeat(At(c.unseq, rows.List()[0]), es + 1)
    {
      hide *;
      Shape();
      HoldsIs(h, c);
      FittingParts(h, c);
      LowStays(rows.List(), h.maps.nInUse, 0);
      NowIs(First(Fetch(0, 0, Whole)));
      var front := rows.Front();
      KnownCharacter(c.unseq, h.maps.seqToUnseq[..], h.maps.nInUse, front);
      ok := PutRun(h.maps.seqToUnseq[front], es + 1, nblockMAX);
      HoldsIs(h, c);
    }

    /** A symbol that is neither a digit nor the end of the block. */
    method Other(h: BlockTables, f: Fetch, sym: nat, nblockMAX: nat, ghost c: Coded, ghost bits: seq<bool>) returns (ph: Phase)
      requires Valid() && h.Valid() && Repr !! h.Repr && Holds(h, c) && Proper(Place(f.groupNo, f.groupPos)) && f.groupNo < h.nSelectors
      requires 1 < sym < c.eob && WellCoded(c) && rows.Valid() && nblockMAX == c.max
      modifies this, cells, unzftab, rows.mtfa, rows.mtfbase
      ensures !ph.Ended?
      ensures Follows(ph, h, c, Continue(Step(old(Mtf(rows.List(), col, 0, 0)), sym, c.eob, c.unseq, c.max), bits, c, Place(f.groupNo, f.groupPos)), bits)
    {
      hide *;
      Shape();
      HoldsIs(h, c);
      FittingParts(h, c);
      NowIs(First(f));
      ghost var yy, col0, at := rows.List(), col, Place(f.groupNo, f.groupPos);
      ghost var o := Step(Mtf(yy, col, 0, 0), sym, c.eob, c.unseq, c.max);
      FrontTaken(yy, col, sym, c);
      Continues(o, bits, c, at);
      if nblock >= nblockMAX {
        FollowsIs(Broken, h, c, Continue(o, bits, c, at), bits);
        return Broken;
      }
      LowStays(yy, h.maps.nInUse, sym - 1);
      var uc := rows.Take(sym - 1);
      KnownCharacter(c.unseq, h.maps.seqToUnseq[..], h.maps.nInUse, uc);
      PutOne(h.maps.seqToUnseq[uc]);
      HoldsIs(h, c);
      NowIs(Next(f));
      ph := Begin(h, f, Next(f), c, bits);
    }

    /** One symbol outside a run. */
    method Symbol(h: BlockTables, f: Fetch, sym: nat, nblockMAX: nat, ghost c: Coded, ghost bits: seq<bool>) returns (ph: Phase)
      requires Valid() && h.Valid() && Repr !! h.Repr && Holds(h, c) && Proper(Place(f.groupNo, f.groupPos)) && f.groupNo < h.nSelectors
      requires sym <= c.eob && WellCoded(c) && rows.Valid() && nblockMAX == c.max
      modifies this, cells, unzftab, rows.mtfa, rows.mtfbase
      ensures Follows(ph, h, c, Continue(Step(old(Mtf(rows.List(), col, 0, 0)), sym, c.eob, c.unseq, c.max), bits, c, Place(f.groupNo, f.groupPos)), bits)
    {
      hide *;
      HoldsIs(h, c);
      FittingParts(h, c);
      NowIs(First(f));
      ghost var yy, at := rows.List(), Place(f.groupNo, f.groupPos);
      ghost var o := Step(Mtf(yy, col, 0, 0), sym, c.eob, c.unseq, c.max);
      if sym == h.maps.nInUse + 1 {
        BlockEnds(yy, col, c);
        Continues(o, bits, c, at);
        FollowsIs(Ended, h, c, Continue(o, bits, c, at), bits);
        return Ended;
      }
      if sym == 0 || sym == 1 {
        RunStart(yy, col, sym, c);
        ph := Digit(h, f, sym, -1, 1, c, bits);
      } else {
        ph := Other(h, f, sym, nblockMAX, c, bits);
      }
    }

    /** One symbol within a run: one more digit, or the first symbol behind it. */
    method RunSymbol(h: BlockTables, f: Fetch, sym: nat, es: int, N: nat, nblockMAX: nat, ghost c: Coded, ghost bits: seq<bool>)
      returns (ph: Phase)
      requires Valid() && h.Valid() && Repr !! h.Repr && Holds(h, c) && Proper(Place(f.groupNo, f.groupPos)) && f.groupNo < h.nSelectors
      requires sym <= c.eob && WellCoded(c) && rows.Valid() && nblockMAX == c.max && 2 <= N <= 0x40_0000 && 0 <= es <= 2 * N - 3
      modifies this, cells, unzftab, rows.mtfa, rows.mtfbase
      ensures Follows(ph, h, c, Continue(Step(old(Mtf(rows.List(), col, es, N)), sym, c.eob, c.unseq, c.max), bits, c, Place(f.groupNo, f.groupPos)), bits)
    {
      hide *;
      if sym == 0 || sym == 1 {
        ph := Digit(h, f, sym, es, N, c, bits);
        return;
      }
      NowIs(First(f));
      HoldsIs(h, c);
      FittingParts(h, c);
      ghost var yy, col0, at := rows.List(), col, Place(f.groupNo, f.groupPos);
      ghost var o := Step(Mtf(yy, col, es, N), sym, c.eob, c.unseq, c.max);
      RunWritten(yy, col, es, N, sym, c);
      var ok := WriteRun(h, es, nblockMAX, c);
      if !ok {
        Continues(o, bits, c, at);
        FollowsIs(Broken, h, c, Continue(o, bits, c, at), bits);
        return Broken;
      }
      ph := Symbol(h, f, sym, nblockMAX, c, bits);
    }

    // The loop.

    method ClearTable()
      requires Valid()
      modifies unzftab
      ensures forall k :: 0 <= k < 256 ==> unzftab[k] == 0
    {
      for i := 0 to 256
        invariant forall k :: 0 <= k < i ==> unzftab[k] == 0
      {
        unzftab[i] := 0;
      }
    }

    /** Now the MTF values: everything is cleared, and the first symbol is begun. */
    method Start(h: BlockTables, ghost c: Coded, ghost bits: seq<bool>) returns (ph: Phase)
      requires Valid() && h.Valid() && Repr !! h.Repr && h.Fitting(c) && c.max <= cells.Length
      modifies this, unzftab, rows.mtfa, rows.mtfbase
      ensures WellCoded(c) && Proper(Place(-1, 0)) && !ph.Ended?
      ensures Follows(ph, h, c, ReadColumn(bits, c, Place(-1, 0), Mtf(FirstList(256), [], 0, 0)), bits)
    {
      hide *;
      Shape();
      FittingParts(h, c);
      StartPlace();
      ClearTable();
      rows.Init();
      nblock, col := 0, [];
      NowIs(First(Fetch(0, 0, Whole)));
      LowStart(rows.List(), h.maps.nInUse);
      EmptyColumn(cells[..], unzftab[..]);
      HoldsIs(h, c);
      ghost var s := Mtf(rows.List(), col, 0, 0);
      var ok, f := BeginSymbol(h, -1, 0, c, s, bits);
      ph := Broken;
      if ok {
        NowIs(First(f));
        StandsIs(First(f), h, c, bits);
        ph := Going(First(f));
      }
      FollowsIs(ph, h, c, ReadColumn(bits, c, Place(-1, 0), s), bits);
    }

    /** The symbol that was awaited at label at has been fetched. */
    method Dispatch(h: BlockTables, at: ColumnAt, sym: nat, nblockMAX: nat, ghost c: Coded, ghost bits: seq<bool>) returns (ph: Phase)
      requires Valid() && h.Valid() && Repr !! h.Repr && Stands(at, h, c) && sym <= c.eob && nblockMAX == c.max
      modifies this, cells, unzftab, rows.mtfa, rows.mtfbase
      ensures WellCoded(c) && Proper(Place(at.f.groupNo, at.f.groupPos)) && old(rows.Valid())
      ensures Follows(ph, h, c, Fetched(Done(sym, bits), c, Place(at.f.groupNo, at.f.groupPos), old(Now(at))), bits)
    {
      hide *;
      StandsIs(at, h, c, bits);
      ProperFetchIs(h, c, at.f);
      NowIs(at);
      FetchedIs(Done(sym, bits), c, Place(at.f.groupNo, at.f.groupPos), Now(at));
      if at.InRun? {
        ph := RunSymbol(h, at.f, sym, at.es, at.N, nblockMAX, c, bits);
      } else {
        ph := Symbol(h, at.f, sym, nblockMAX, c, bits);
      }
    }

    /**
     The decoding loop. It fetches the symbols the specification reads, keeps the frequency table in step with
     the column, and never writes beyond nblockMAX. Wherever the input runs out, the label and the saved locals say how to go on.
     */
    method Receive(r: Reader, h: BlockTables, at0: ColumnAt, nblockMAX: nat, ghost c: Coded, ghost more: seq<bool>)
      returns (st: Status, at: ColumnAt)
      requires Valid() && h.Valid() && Repr !! h.Repr && r.Valid() && r !in h.Repr && r !in Repr
      requires Stands(at0, h, c) && nblockMAX == c.max
      modifies r, this, cells, unzftab, rows.mtfa, rows.mtfbase
      ensures r.Valid() && |r.Unread()| <= |old(r.Unread())| && (st == Ok ==> |r.Unread()| < |old(r.Unread())|)
      ensures (st == Waiting ==> Stands(at, h, c) && r.input == []) && (st == Ok ==> Holds(h, c))
      ensures Resumes(st, col, r.Ahead(more), old(Rest(at0, h, c, r.Ahead(more))),
                      if st == Waiting then Rest(at, h, c, r.Ahead(more)) else Stop(NeedInput),
                      if st == Waiting then Rest(at, h, c, r.Unread()) else Stop(NeedInput))
    {
      hide *;
      at := at0;
      ghost var was := Rest(at, h, c, r.Ahead(more));
      while true
        invariant r.Valid() && Stands(at, h, c) && was == Rest(at, h, c, r.Ahead(more)) && |r.Unread()| <= |old(r.Unread())|
        decreases |r.Unread()|
      {
        Shape();
        StandsIs(at, h, c, r.Ahead(more));
        ghost var awaited, place, s := Awaited(c, at.f, r.Ahead(more)), Place(at.f.groupNo, at.f.groupPos), Now(at);
        var sym, f;
        st, sym, f := FetchSymbol(r, h, at.f, c, more);
        ghost var now := if st == Waiting then Awaited(c, f, r.Ahead(more)) else Stop(NeedInput);
        ghost var sofar := if st == Waiting then Awaited(c, f, r.Unread()) else Stop(NeedInput);
        ResumesIs(st, sym, r.Ahead(more), awaited, now, sofar);
        FetchedIs(awaited, c, place, s);
        if st != Ok {
          if st == Waiting {
            FetchedIs(sofar, c, place, s);
            at := SameLabel(h, at, f, c, r.Ahead(more), r.Unread());
          }
          ResumesIs(st, col, r.Ahead(more), was, if st == Waiting then Rest(at, h, c, r.Ahead(more)) else Stop(NeedInput),
                    if st == Waiting then Rest(at, h, c, r.Unread()) else Stop(NeedInput));
          return;
        }
        FetchedIs(Done(sym, r.Ahead(more)), c, place, s);
        var ph := Dispatch(h, at, sym, nblockMAX, c, r.Ahead(more));
        FollowsIs(ph, h, c, was, r.Ahead(more));
        if !ph.Going? {
          st := if ph == Ended then Ok else Failed(DataError);
          ResumesIs<seq<byte>>(st, col, r.Ahead(more), was, Stop(NeedInput), Stop(NeedInput));
          return;
        }
        at := ph.at;
      }
    }

    /** The fetching was interrupted: the label it is resumed at. */
    method SameLabel(h: BlockTables, at0: ColumnAt, f: Fetch, ghost c: Coded, ghost ahead: seq<bool>, ghost unread: seq<bool>) returns (at: ColumnAt)
      requires Valid() && h.Valid() && Stands(at0, h, c) && ProperFetch(h, c, f) && rows.Valid() && WellCoded(c)
      requires f.groupNo == at0.f.groupNo && f.groupPos == at0.f.groupPos && Proper(Place(f.groupNo, f.groupPos))
      ensures Stands(at, h, c)
      ensures Rest(at, h, c, ahead) == Fetched(Awaited(c, f, ahead), c, Place(f.groupNo, f.groupPos), Now(at0))
      ensures Rest(at, h, c, unread) == Fetched(Awaited(c, f, unread), c, Place(f.groupNo, f.groupPos), Now(at0))
    {
      hide *;
      at := at0.(f := f);
      StandsIs(at0, h, c, ahead);
      NowIs(at0);
      NowIs(at);
      StandsIs(at, h, c, ahead);
      StandsIs(at, h, c, unread);
    }
  }
}
