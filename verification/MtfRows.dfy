/**
 The decompressor's move-to-front list (dep/bzip2/decompress.c): 16 rows of 16 that slide down through
 mtfa and are packed at its top again when the lowest row reaches 0. It behaves as a plain list.
 */
module MtfRows {
  import opened Bits
  import opened MoveToFront

  const MTFA_SIZE := 4096
  const MTFL_SIZE := 16

  /** The rows lie in order, without overlapping, inside mtfa. */
  ghost predicate Apart(b: seq<int>) {
    && |b| == 16 && (forall r :: 0 <= r < 16 ==> 16 * r <= b[r] <= 3840 + 16 * r)
    && forall r, s :: 0 <= r < s < 16 ==> b[r] + 16 * (s - r) <= b[s]
  }

  /** Element 16r + o of the list is cell o of row r. */
  ghost function Listed(a: seq<byte>, b: seq<int>): (list: seq<byte>)
    requires |a| == 4096 && Apart(b)
    ensures |list| == 256
  {
    seq(256, n requires 0 <= n < 256 => a[b[n / 16] + n % 16])
  }

  /** The 16 cells from p on are row r of the list t. */
  ghost predicate RowIs(a: seq<byte>, p: int, t: seq<byte>, r: nat) {
    0 <= p <= |a| - 16 && 16 * r + 16 <= |t| && a[p..p + 16] == t[16 * r..16 * r + 16]
  }

  lemma RowCell(a: seq<byte>, p: int, t: seq<byte>, r: nat, o: nat)
    requires RowIs(a, p, t, r) && o < 16
    ensures a[p + o] == t[16 * r + o]
  {
    assert a[p..p + 16][o] == t[16 * r..16 * r + 16][o];
  }

  lemma ListedRow(a: seq<byte>, b: seq<int>, r: nat)
    requires |a| == 4096 && Apart(b) && r < 16
    ensures RowIs(a, b[r], Listed(a, b), r)
  {
    var cells, row := a[b[r]..b[r] + 16], Listed(a, b)[16 * r..16 * r + 16];
    forall o | 0 <= o < 16
      ensures cells[o] == row[o]
    {
      assert (16 * r + o) / 16 == r && (16 * r + o) % 16 == o;
    }
  }

  lemma RowsAreList(a: seq<byte>, b: seq<int>, t: seq<byte>)
    requires |a| == 4096 && Apart(b) && |t| == 256 && forall r :: 0 <= r < 16 ==> RowIs(a, b[r], t, r)
    ensures Listed(a, b) == t
  {
    forall n | 0 <= n < 256
      ensures Listed(a, b)[n] == t[n]
    {
      RowCell(a, b[n / 16], t, n / 16, n % 16);
    }
  }

  /** The row gives up its element at off and takes x in front. */
  function Pushed(row: seq<byte>, x: byte, off: nat): (r: seq<byte>)
    requires |row| == 16 && off < 16
    ensures |r| == 16
  {
    [x] + row[..off] + row[off + 1..]
  }

  /** Moving element nn = 16 * top + off to the front of the list, row by row. */
  lemma FrontRow(l: seq<byte>, top: nat, off: nat, r: nat)
    requires |l| == 256 && top < 16 && off < 16 && r < 16
    ensures r > top ==> ToFront(l, 16 * top + off)[16 * r..16 * r + 16] == l[16 * r..16 * r + 16]
    ensures r <= top ==> ToFront(l, 16 * top + off)[16 * r..16 * r + 16]
                         == Pushed(l[16 * r..16 * r + 16], if r == 0 then l[16 * top + off] else l[16 * r - 1],
                                   if r < top then 15 else off)
  {
    var nn := 16 * top + off;
    var t := ToFront(l, nn);
    assert forall k :: 0 <= k < 256 ==> t[k] == if k == 0 then l[nn] else if k <= nn then l[k - 1] else l[k];
    if r <= top {
      var x, out := if r == 0 then l[nn] else l[16 * r - 1], if r < top then 15 else off;
      var row, row' := l[16 * r..16 * r + 16], t[16 * r..16 * r + 16];
      var p := Pushed(row, x, out);
      assert forall o :: 0 <= o < 16 ==> p[o] == if o == 0 then x else if o <= out then row[o - 1] else row[o];
      assert forall o :: 0 <= o < 16 ==> row'[o] == t[16 * r + o] && row[o] == l[16 * r + o];
    }
  }

  /** The cells of (at, end] have taken the values one below; from is untouched. */
  ghost predicate Slid(a: seq<byte>, a': seq<byte>, from: int, at: int, end: int) {
    && |a| == |a'| && 0 <= from <= at <= end < |a|
    && (forall k :: 0 <= k < |a| && !(at < k <= end) ==> a'[k] == a[k])
    && (forall k :: at < k <= end ==> a'[k] == a[k - 1])
  }

  class Rows {
    const mtfa: array<byte>
    const mtfbase: array<int>

    /** Between operations the lowest row does not touch the bottom. */
    ghost predicate Valid()
      reads this, mtfa, mtfbase
    {
      mtfa.Length == 4096 && mtfbase.Length == 16 && Apart(mtfbase[..]) && mtfbase[0] > 0
    }

    ghost function List(): (list: seq<byte>)
      requires Valid()
      reads this, mtfa, mtfbase
      ensures |list| == 256
    {
      Listed(mtfa[..], mtfbase[..])
    }

    constructor ()
      ensures mtfa.Length == 4096 && mtfbase.Length == 16 && fresh(mtfa) && fresh(mtfbase)
    {
      mtfa := new byte[4096];
      mtfbase := new int[16];
    }

    /** MTF init. */
    method Init()
      requires mtfa.Length == 4096 && mtfbase.Length == 16
      modifies mtfa, mtfbase
      ensures Valid() && forall v :: 0 <= v < 256 ==> List()[v] == v
    {
      var kk := MTFA_SIZE - 1;
      var ii := 256 / MTFL_SIZE - 1;
      while ii >= 0
        invariant -1 <= ii <= 15 && kk == 3840 + 16 * ii + 15
        invariant forall r :: ii < r < 16 ==> mtfbase[r] == 3840 + 16 * r
        invariant forall k :: kk < k < 4096 ==> mtfa[k] == k - 3840
      {
        var jj := MTFL_SIZE - 1;
        while jj >= 0
          invariant -1 <= jj <= 15 && kk == 3840 + 16 * ii + jj
          invariant forall r :: ii < r < 16 ==> mtfbase[r] == 3840 + 16 * r
          invariant forall k :: kk < k < 4096 ==> mtfa[k] == k - 3840
        {
          mtfa[kk] := ii * MTFL_SIZE + jj;
          kk := kk - 1;
          jj := jj - 1;
        }
        mtfbase[ii] := kk + 1;
        ii := ii - 1;
      }
    }

    /** The element at the front, as the run-length code repeats it. */
    method Front() returns (uc: byte)
      requires Valid()
      ensures uc == List()[0]
    {
      uc := mtfa[mtfbase[0]];
    }

    /** uc = MTF(nn). */
    method Take(nn: nat) returns (uc: byte)
      requires Valid() && nn < 256
      modifies mtfa, mtfbase
      ensures Valid() && uc == old(List())[nn] && List() == ToFront(old(List()), nn)
    {
      if nn < MTFL_SIZE {
        uc := TakeNear(nn);
      } else {
        uc := TakeFar(nn);
        if mtfbase[0] == 0 {
          Compact();
        }
      }
    }

    /** Within row 0 the elements before the one taken move up, four at a time and then one by one. */
    method TakeNear(n: nat) returns (uc: byte)
      requires Valid() && n < 16
      modifies mtfa
      ensures Valid() && uc == old(List())[n] && List() == ToFront(old(List()), n)
    {
      hide Listed, ToFront;
      ghost var a := mtfa[..];
      var pp, nn := mtfbase[0], n;
      uc := mtfa[pp + nn];
      while nn > 3
        invariant 0 <= nn <= n && Slid(a, mtfa[..], pp, pp + nn, pp + n)
      {
        SlideFour(pp + nn, a, pp, pp + n);
        nn := nn - 4;
      }
      while nn > 0
        invariant 0 <= nn <= n && Slid(a, mtfa[..], pp, pp + nn, pp + n)
      {
        mtfa[pp + nn] := mtfa[pp + nn - 1];
        nn := nn - 1;
      }
      mtfa[pp] := uc;
      NearDone(a, mtfa[..], mtfbase[..], n);
    }

    /** Four moves at a time. */
    method SlideFour(z: int, ghost a: seq<byte>, ghost from: int, ghost end: int)
      requires from + 4 <= z && Slid(a, mtfa[..], from, z, end)
      modifies mtfa
      ensures Slid(a, mtfa[..], from, z - 4, end)
    {
      mtfa[z] := mtfa[z - 1];
      mtfa[z - 1] := mtfa[z - 2];
      mtfa[z - 2] := mtfa[z - 3];
      mtfa[z - 3] := mtfa[z - 4];
    }

    /** Row lno gives up the element, and every row from lno down passes its last one on to the next row. */
    method TakeFar(nn: nat) returns (uc: byte)
      requires Valid() && 16 <= nn < 256
      modifies mtfa, mtfbase
      ensures mtfa.Length == 4096 && mtfbase.Length == 16 && Apart(mtfbase[..])
      ensures uc == old(List())[nn] && Listed(mtfa[..], mtfbase[..]) == ToFront(old(List()), nn)
    {
      hide Listed, ToFront, Passing, RowIs;
      ghost var a, b := mtfa[..], mtfbase[..];
      var lno, off := nn / MTFL_SIZE, nn % MTFL_SIZE;
      ghost var top := lno;
      var pp := mtfbase[lno] + off;
      uc := mtfa[pp];
      while pp > mtfbase[lno]
        modifies mtfa
        invariant b[lno] <= pp <= b[lno] + off && Slid(a, mtfa[..], b[lno], pp, b[lno] + off)
      {
        mtfa[pp] := mtfa[pp - 1];
        pp := pp - 1;
      }
      mtfbase[lno] := mtfbase[lno] + 1;
      FarStart(a, mtfa[..], b, mtfbase[..], lno, off);
      while lno > 0
        invariant 0 <= lno <= top && Passing(a, mtfa[..], b, mtfbase[..], top, off, lno)
      {
        ghost var a', b' := mtfa[..], mtfbase[..];
        PassOn(a, a', b, b', top, off, lno);
        mtfbase[lno] := mtfbase[lno] - 1;
        mtfa[mtfbase[lno]] := mtfa[mtfbase[lno - 1] + MTFL_SIZE - 1];
        assert mtfa[..] == a'[b'[lno] - 1 := a'[b'[lno - 1] + 15]] && mtfbase[..] == b'[lno := b'[lno] - 1];
        lno := lno - 1;
      }
      ghost var a', b' := mtfa[..], mtfbase[..];
      FarEnd(a, a', b, b', top, off, uc);
      mtfbase[0] := mtfbase[0] - 1;
      mtfa[mtfbase[0]] := uc;
      assert mtfa[..] == a'[b'[0] - 1 := uc] && mtfbase[..] == b'[0 := b'[0] - 1];
    }

    /** The rows are copied to the top of mtfa, from the last element down. No cell is overwritten before it is read. */
    method Compact()
      requires mtfa.Length == 4096 && mtfbase.Length == 16 && Apart(mtfbase[..])
      modifies mtfa, mtfbase
      ensures Valid() && List() == old(Listed(mtfa[..], mtfbase[..]))
    {
      hide Listed;
      ghost var a, b := mtfa[..], mtfbase[..];
      var kk := MTFA_SIZE - 1;
      var ii := 256 / MTFL_SIZE - 1;
      while ii >= 0
        invariant -1 <= ii <= 15 && kk == 3840 + 16 * ii + 15
        invariant forall r :: 0 <= r <= ii ==> mtfbase[r] == b[r]
        invariant Packed(a, mtfa[..], b, kk)
        invariant forall r :: ii < r < 16 ==> mtfbase[r] == 3840 + 16 * r
      {
        var jj := MTFL_SIZE - 1;
        while jj >= 0
          modifies mtfa
          invariant -1 <= jj <= 15 && kk == 3840 + 16 * ii + jj
          invariant Packed(a, mtfa[..], b, kk)
        {
          PackOne(a, mtfa[..], b, ii, jj);
          mtfa[kk] := mtfa[mtfbase[ii] + jj];
          kk := kk - 1;
          jj := jj - 1;
        }
        mtfbase[ii] := kk + 1;
        ii := ii - 1;
      }
      PackedAll(a, mtfa[..], b, mtfbase[..]);
    }
  }

  lemma NearDone(a: seq<byte>, a': seq<byte>, b: seq<int>, n: nat)
    requires |a| == |a'| == 4096 && Apart(b) && n < 16
    requires forall k :: 0 <= k < 4096 && !(b[0] <= k <= b[0] + n) ==> a'[k] == a[k]
    requires forall k :: b[0] < k <= b[0] + n ==> a'[k] == a[k - 1]
    requires a'[b[0]] == a[b[0] + n]
    ensures Listed(a', b) == ToFront(Listed(a, b), n) && Listed(a, b)[n] == a[b[0] + n]
  {
    var l := Listed(a, b);
    var t := ToFront(l, n);
    ListedRow(a, b, 0);
    RowCell(a, b[0], l, 0, n);
    forall r | 0 <= r < 16
      ensures RowIs(a', b[r], t, r)
    {
      ListedRow(a, b, r);
      FrontRow(l, 0, n, r);
      if r == 0 {
        PushedRow(a, a', b[0], n);
      } else {
        assert b[0] + 16 * (r - 0) <= b[r];
        assert a'[b[r]..b[r] + 16] == a[b[r]..b[r] + 16];
      }
    }
    RowsAreList(a', b, t);
  }

  lemma PushedRow(a: seq<byte>, a': seq<byte>, p: nat, n: nat)
    requires |a| == |a'| && p + 16 <= |a| && n < 16
    requires forall k :: p + n < k < p + 16 ==> a'[k] == a[k]
    requires forall k :: p < k <= p + n ==> a'[k] == a[k - 1]
    ensures a'[p..p + 16] == Pushed(a[p..p + 16], a'[p], n)
  {
    var q := Pushed(a[p..p + 16], a'[p], n);
    forall o | 0 <= o < 16
      ensures a'[p..p + 16][o] == q[o]
    {
    }
  }

  /**
   Rows above lno are as the new list has them, row lno misses its first element (in its original
   place if it is not the top one), and the rows below are untouched.
   */
  ghost predicate Passing(a: seq<byte>, a': seq<byte>, b: seq<int>, b': seq<int>, top: nat, off: nat, lno: nat) {
    && |a| == |a'| == 4096 && Apart(b) && |b'| == 16 && b[0] > 0 && lno <= top < 16 && off < 16
    && (forall r :: 0 <= r < 16 ==>
          b'[r] == if r == lno == top then b[r] + 1 else if lno < r < top then b[r] - 1 else b[r])
    && (forall r :: lno < r < 16 ==> RowIs(a', b'[r], ToFront(Listed(a, b), 16 * top + off), r))
    && (lno < top ==> forall k :: 0 <= k < b[lno] + 16 ==> a'[k] == a[k])
    && (lno == top ==> forall k :: 0 <= k <= b[lno] || b[lno] + off < k < b[lno] + 16 ==> a'[k] == a[k])
    && (lno == top ==> forall k :: b[lno] < k <= b[lno] + off ==> a'[k] == a[k - 1])
  }

  lemma FarStart(a: seq<byte>, a': seq<byte>, b: seq<int>, b': seq<int>, lno: nat, off: nat)
    requires |a| == |a'| == 4096 && Apart(b) && |b'| == 16 && b[0] > 0 && lno < 16 && off < 16
    requires forall k :: 0 <= k < 4096 && !(b[lno] < k <= b[lno] + off) ==> a'[k] == a[k]
    requires forall k :: b[lno] < k <= b[lno] + off ==> a'[k] == a[k - 1]
    requires b' == b[lno := b[lno] + 1]
    ensures Passing(a, a', b, b', lno, off, lno)
    ensures Listed(a, b)[16 * lno + off] == a[b[lno] + off]
  {
    var l := Listed(a, b);
    ListedRow(a, b, lno);
    RowCell(a, b[lno], l, lno, off);
    forall r | lno < r < 16
      ensures RowIs(a', b'[r], ToFront(l, 16 * lno + off), r)
    {
      ListedRow(a, b, r);
      FrontRow(l, lno, off, r);
      assert b[lno] + 16 * (r - lno) <= b[r];
      assert a'[b[r]..b[r] + 16] == a[b[r]..b[r] + 16];
    }
  }

  /** The cell below row lno takes an element; the rows above do not notice. */
  lemma RowsAbove(a: seq<byte>, a': seq<byte>, b: seq<int>, b': seq<int>, top: nat, off: nat, lno: nat, x: byte, r: nat)
    requires Passing(a, a', b, b', top, off, lno) && 0 <= b'[lno] - 1 && lno < r < 16
    ensures RowIs(a'[b'[lno] - 1 := x], b'[r], ToFront(Listed(a, b), 16 * top + off), r)
  {
    var t := ToFront(Listed(a, b), 16 * top + off);
    assert b[lno] + 16 * (r - lno) <= b[r];
    assert RowIs(a', b'[r], t, r);
    assert a'[b'[lno] - 1 := x][b'[r]..b'[r] + 16] == a'[b'[r]..b'[r] + 16];
  }

  /** With x in the cell below it, row lno is as the new list has it. */
  lemma RowPushed(a: seq<byte>, a': seq<byte>, b: seq<int>, b': seq<int>, top: nat, off: nat, lno: nat, x: byte)
    requires Passing(a, a', b, b', top, off, lno)
    requires x == if lno == 0 then Listed(a, b)[16 * top + off] else Listed(a, b)[16 * lno - 1]
    ensures 0 <= b'[lno] - 1
    ensures RowIs(a'[b'[lno] - 1 := x], b'[lno] - 1, ToFront(Listed(a, b), 16 * top + off), lno)
  {
    var l, p := Listed(a, b), b'[lno] - 1;
    var a'' := a'[p := x];
    assert b[0] + 16 * lno <= b[lno] by { if lno > 0 { assert b[0] + 16 * (lno - 0) <= b[lno]; } }
    ListedRow(a, b, lno);
    FrontRow(l, top, off, lno);
    if lno == top {
      PushedRow(a, a'', p, off);
    } else {
      assert a''[p..p + 16] == [x] + a[b[lno]..b[lno] + 15];
      assert a[b[lno]..b[lno] + 16][..15] == a[b[lno]..b[lno] + 15];
      assert a[b[lno]..b[lno] + 16][16..] == [];
    }
  }

  lemma PassOn(a: seq<byte>, a': seq<byte>, b: seq<int>, b': seq<int>, top: nat, off: nat, lno: nat)
    requires Passing(a, a', b, b', top, off, lno) && 0 < lno
    ensures 0 <= b'[lno] - 1 < 4096 && 0 <= b'[lno - 1] + 15 < 4096
    ensures Passing(a, a'[b'[lno] - 1 := a'[b'[lno - 1] + 15]], b, b'[lno := b'[lno] - 1], top, off, lno - 1)
  {
    hide Listed, ToFront, RowIs;
    var l := Listed(a, b);
    assert b[lno - 1] + 16 * (lno - (lno - 1)) <= b[lno];
    ListedRow(a, b, lno - 1);
    RowCell(a, b[lno - 1], l, lno - 1, 15);
    var x := a'[b'[lno - 1] + 15];
    assert x == a[b[lno - 1] + 15];
    RowPushed(a, a', b, b', top, off, lno, x);
    var a'', b'' := a'[b'[lno] - 1 := x], b'[lno := b'[lno] - 1];
    forall r | lno - 1 < r < 16
      ensures RowIs(a'', b''[r], ToFront(l, 16 * top + off), r)
    {
      if r > lno { RowsAbove(a, a', b, b', top, off, lno, x, r); }
    }
  }

  lemma FarEnd(a: seq<byte>, a': seq<byte>, b: seq<int>, b': seq<int>, top: nat, off: nat, uc: byte)
    requires Passing(a, a', b, b', top, off, 0) && 0 < top && uc == Listed(a, b)[16 * top + off]
    ensures 0 <= b'[0] - 1 < 4096
    ensures var a'', b'' := a'[b'[0] - 1 := uc], b'[0 := b'[0] - 1];
            Apart(b'') && Listed(a'', b'') == ToFront(Listed(a, b), 16 * top + off)
  {
    var t := ToFront(Listed(a, b), 16 * top + off);
    RowPushed(a, a', b, b', top, off, 0, uc);
    var a'', b'' := a'[b'[0] - 1 := uc], b'[0 := b'[0] - 1];
    BasesApart(b, b'', top);
    forall r | 0 <= r < 16
      ensures RowIs(a'', b''[r], t, r)
    {
      if r > 0 { RowsAbove(a, a', b, b', top, off, 0, uc, r); }
    }
    RowsAreList(a'', b'', t);
  }

  lemma BasesApart(b: seq<int>, b': seq<int>, top: nat)
    requires Apart(b) && |b'| == 16 && b[0] > 0 && top < 16
    requires forall r :: 0 <= r < 16 ==> b'[r] == if r < top then b[r] - 1 else b[r]
    ensures Apart(b')
  {
    forall r | 0 <= r < 16
      ensures 16 * r <= b'[r]
    {
      if r > 0 { assert b[0] + 16 * (r - 0) <= b[r]; }
    }
    forall r, s | 0 <= r < s < 16
      ensures b'[r] + 16 * (s - r) <= b'[s]
    {
      assert b[r] + 16 * (s - r) <= b[s];
    }
  }

  /** The places above kk hold the end of the list; the others are as they were. */
  ghost predicate Packed(a: seq<byte>, a': seq<byte>, b: seq<int>, kk: int) {
    && |a| == |a'| == 4096 && Apart(b) && 3839 <= kk < 4096
    && (forall k :: 0 <= k <= kk ==> a'[k] == a[k])
    && (forall k :: kk < k < 4096 ==> a'[k] == Listed(a, b)[k - 3840])
  }

  lemma PackOne(a: seq<byte>, a': seq<byte>, b: seq<int>, ii: nat, jj: nat)
    requires ii < 16 && jj < 16 && Packed(a, a', b, 3840 + 16 * ii + jj)
    ensures 0 <= b[ii] + jj <= 3840 + 16 * ii + jj
    ensures Packed(a, a'[3840 + 16 * ii + jj := a'[b[ii] + jj]], b, 3840 + 16 * ii + jj - 1)
  {
    ListedRow(a, b, ii);
    RowCell(a, b[ii], Listed(a, b), ii, jj);
  }

  lemma PackedAll(a: seq<byte>, a': seq<byte>, b: seq<int>, b': seq<int>)
    requires Packed(a, a', b, 3839) && |b'| == 16 && forall r :: 0 <= r < 16 ==> b'[r] == 3840 + 16 * r
    ensures Apart(b') && Listed(a', b') == Listed(a, b)
  {
    forall n | 0 <= n < 256
      ensures Listed(a', b')[n] == Listed(a, b)[n]
    {
      assert b'[n / 16] + n % 16 == 3840 + n;
    }
  }
}
