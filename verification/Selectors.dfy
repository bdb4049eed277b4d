/**
 The selectors: which coding table each group of 50 symbols uses, sent as move-to-front positions in
 unary (dep/bzip2/compress.c, dep/bzip2/decompress.c).
 */
module Selectors {
  import opened Bits
  import opened BitReader
  import opened BitWriter
  import opened MappingTable
  import opened MoveToFront

  // Move-to-front of the table numbers.

  /** The positions at which the selectors are found in a list that each one is moved to the front of. */
  function Positions(pos: seq<byte>, sel: seq<byte>): (js: seq<nat>)
    requires forall i :: 0 <= i < |sel| ==> sel[i] in pos
    ensures |js| == |sel| && forall i :: 0 <= i < |js| ==> js[i] < |pos|
    decreases |sel|
  {
    if sel == [] then []
    else
      ToFrontKeeps(pos, Position(pos, sel[0]));
      [Position(pos, sel[0])] + Positions(ToFront(pos, Position(pos, sel[0])), sel[1..])
  }

  function Selected(pos: seq<byte>, js: seq<nat>): (sel: seq<byte>)
    requires forall i :: 0 <= i < |js| ==> js[i] < |pos|
    ensures |sel| == |js| && forall i :: 0 <= i < |sel| ==> sel[i] in pos
    decreases |js|
  {
    if js == [] then []
    else
      ToFrontKeeps(pos, js[0]);
      [pos[js[0]]] + Selected(ToFront(pos, js[0]), js[1..])
  }

  /** The decoder's list follows the encoder's. */
  lemma {:induction false} SelectedPositions(pos: seq<byte>, sel: seq<byte>)
    requires forall i :: 0 <= i < |sel| ==> sel[i] in pos
    ensures Selected(pos, Positions(pos, sel)) == sel
    decreases |sel|
  {
    hide ToFront, Position;
    if sel != [] {
      var j := Position(pos, sel[0]);
      ToFrontKeeps(pos, j);
      SelectedPositions(ToFront(pos, j), sel[1..]);
      assert Positions(pos, sel)[1..] == Positions(ToFront(pos, j), sel[1..]);
      assert sel == [sel[0]] + sel[1..];
    }
  }

  // The format.

  function Ones(j: nat): (b: seq<bool>)
    ensures |b| == j && forall i :: 0 <= i < j ==> b[i]
  {
    seq(j, _ => true)
  }

  function UnaryBits(j: nat): seq<bool> {
    Ones(j) + [false]
  }

  function PositionBits(js: seq<nat>): seq<bool> {
    if js == [] then [] else UnaryBits(js[0]) + PositionBits(js[1..])
  }

  /** j ones have been read; the number must stay below nGroups. */
  function ReadUnary(bits: seq<bool>, j: nat, nGroups: nat): (r: Read<nat>)
    requires j < nGroups
    ensures r.Done? ==> r.value < nGroups && |r.rest| < |bits|
    decreases |bits|
  {
    if bits == [] then Stop(NeedInput)
    else if !bits[0] then Done(j, bits[1..])
    else if j + 1 >= nGroups then Stop(DataError)
    else ReadUnary(bits[1..], j + 1, nGroups)
  }

  /** n positions, of the first of which j ones have been read, when there are places for no more than room of them. */
  function ReadPositions(bits: seq<bool>, j: nat, n: nat, room: nat, nGroups: nat): (r: Read<seq<nat>>)
    requires j < nGroups
    ensures r.Done? ==> |r.value| == n && forall i :: 0 <= i < n ==> r.value[i] < nGroups
    ensures r.Done? ==> |r.rest| <= |bits|
    decreases n
  {
    if n == 0 then Done([], bits)
    else
      match ReadUnary(bits, j, nGroups)
      case Done(p, rest) =>
        if room == 0 then Stop(TooMany) else Prepend([p], ReadPositions(rest, 0, n - 1, room - 1, nGroups))
      case Stop(why) => Stop(why)
  }

  lemma {:induction false} UnaryRoundTrip(k: nat, j: nat, nGroups: nat, more: seq<bool>)
    requires k + j < nGroups
    ensures ReadUnary(Ones(k) + [false] + more, j, nGroups) == Done(k + j, more)
    decreases k
  {
    var bits := Ones(k) + [false] + more;
    if k == 0 {
      assert bits[1..] == more;
    } else {
      assert bits[1..] == Ones(k - 1) + [false] + more;
      UnaryRoundTrip(k - 1, j + 1, nGroups, more);
    }
  }

  lemma {:induction false} PositionsRoundTrip(js: seq<nat>, room: nat, nGroups: nat, more: seq<bool>)
    requires 1 <= nGroups && |js| <= room && forall i :: 0 <= i < |js| ==> js[i] < nGroups
    ensures ReadPositions(PositionBits(js) + more, 0, |js|, room, nGroups) == Done(js, more)
    decreases |js|
  {
    hide ReadUnary, Ones;
    if js == [] {
      assert [] + more == more;
    } else {
      UnaryRoundTrip(js[0], 0, nGroups, PositionBits(js[1..]) + more);
      Associate(UnaryBits(js[0]), PositionBits(js[1..]), more);
      PositionsRoundTrip(js[1..], room - 1, nGroups, more);
      assert js == [js[0]] + js[1..];
    }
  }

  lemma {:induction false} PositionBitsLength(js: seq<nat>, nGroups: nat)
    requires forall i :: 0 <= i < |js| ==> js[i] < nGroups
    ensures |PositionBits(js)| <= nGroups * |js|
  {
    if js != [] {
      PositionBitsLength(js[1..], nGroups);
      assert nGroups * |js| == nGroups + nGroups * |js[1..]|;
    }
  }

  datatype Table = Table(nGroups: nat, sel: seq<byte>)

  function SelectorBits(nGroups: nat, js: seq<nat>): seq<bool> {
    BitsOf(3, nGroups) + BitsOf(15, |js|) + PositionBits(js)
  }

  /** The places of selectorMtf and of selector. */
  const BZ_MAX_SELECTORS := 18002

  /** The selectors that these positions stand for. */
  function SelectedTable(r: Read<seq<nat>>, nGroups: nat): (t: Read<Table>)
    requires nGroups <= 6 && (r.Done? ==> forall i :: 0 <= i < |r.value| ==> r.value[i] < nGroups)
    ensures t.Done? <==> r.Done?
    ensures t.Done? ==> t.value.nGroups == nGroups && |t.value.sel| == |r.value| && t.rest == r.rest
    ensures t.Done? ==> forall i :: 0 <= i < |t.value.sel| ==> t.value.sel[i] in FirstList(nGroups)
  {
    match r
    case Done(js, rest) => Done(Table(nGroups, Selected(FirstList(nGroups), js)), rest)
    case Stop(why) => Stop(why)
  }

  /** The number of selectors, and the selectors. */
  function ReadCount(bits: seq<bool>, nGroups: nat): (r: Read<Table>)
    requires 2 <= nGroups <= 6
    ensures r.Done? ==> 2 <= r.value.nGroups <= 6 && r.value.sel != [] && |r.rest| <= |bits|
    ensures r.Done? ==> forall i :: 0 <= i < |r.value.sel| ==> r.value.sel[i] in FirstList(r.value.nGroups)
  {
    if |bits| < 15 then Stop(NeedInput)
    else if Value(bits[..15]) < 1 then Stop(DataError)
    else SelectedTable(ReadPositions(bits[15..], 0, Value(bits[..15]), BZ_MAX_SELECTORS, nGroups), nGroups)
  }

  function ReadSelectors(bits: seq<bool>): (r: Read<Table>)
    ensures r.Done? ==> 2 <= r.value.nGroups <= 6 && r.value.sel != [] && |r.rest| <= |bits|
    ensures r.Done? ==> forall i :: 0 <= i < |r.value.sel| ==> r.value.sel[i] in FirstList(r.value.nGroups)
  {
    if |bits| < 3 then Stop(NeedInput)
    else if Value(bits[..3]) < 2 || Value(bits[..3]) > 6 then Stop(DataError)
    else ReadCount(bits[3..], Value(bits[..3]))
  }

  // The places for the selectors.

  /** How many of n positions come complete before the bits run out or one of them is out of range. */
  function Arriving(bits: seq<bool>, j: nat, n: nat, nGroups: nat): nat
    requires j < nGroups
    decreases n
  {
    if n == 0 then 0
    else
      match ReadUnary(bits, j, nGroups)
      case Done(_, rest) => 1 + Arriving(rest, 0, n - 1, nGroups)
      case Stop(_) => 0
  }

  /** Receiving the positions stays inside the arrays exactly when no more of them arrive than there are places. */
  lemma {:induction false} StaysInside(bits: seq<bool>, j: nat, n: nat, room: nat, nGroups: nat)
    requires j < nGroups
    ensures ReadPositions(bits, j, n, room, nGroups) != Stop(TooMany) <==> Arriving(bits, j, n, nGroups) <= room
    ensures Arriving(bits, j, n, nGroups) <= n
    decreases n
  {
    hide ReadUnary;
    UnaryStops(bits, j, nGroups);
    if n > 0 {
      match ReadUnary(bits, j, nGroups)
      case Done(_, rest) => StaysInside(rest, 0, n - 1, if room == 0 then 0 else room - 1, nGroups);
      case Stop(_) =>
    }
  }

  lemma {:induction false} UnaryStops(bits: seq<bool>, j: nat, nGroups: nat)
    requires j < nGroups
    ensures ReadUnary(bits, j, nGroups) != Stop(TooMany)
    decreases |bits|
  {
    if bits != [] && bits[0] && j + 1 < nGroups {
      UnaryStops(bits[1..], j + 1, nGroups);
    }
  }

  /**
   When BZ2_decompress receives the selectors, it writes outside selectorMtf exactly when a block announces a valid number
   of tables and more than 18002 selectors arrive. It checks nothing that would prevent this.
   */
  lemma OutsideExactly(bits: seq<bool>)
    ensures ReadSelectors(bits) == Stop(TooMany) <==>
              && |bits| >= 18 && 2 <= Value(bits[..3]) <= 6
              && Arriving(bits[18..], 0, Value(bits[3..18]), Value(bits[..3])) > BZ_MAX_SELECTORS
  {
    hide Value, ReadPositions, Arriving;
    if |bits| >= 18 && 2 <= Value(bits[..3]) <= 6 {
      assert bits[3..][..15] == bits[3..18] && bits[3..][15..] == bits[18..];
      StaysInside(bits[18..], 0, Value(bits[3..18]), BZ_MAX_SELECTORS, Value(bits[..3]));
    }
  }

  /** So it is enough that the block announces no more than 18002. */
  lemma FewEnough(bits: seq<bool>)
    requires |bits| >= 18 ==> Value(bits[3..18]) <= BZ_MAX_SELECTORS
    ensures ReadSelectors(bits) != Stop(TooMany)
  {
    hide Value, ReadSelectors;
    OutsideExactly(bits);
    if |bits| >= 18 && 2 <= Value(bits[..3]) <= 6 {
      StaysInside(bits[18..], 0, Value(bits[3..18]), BZ_MAX_SELECTORS, Value(bits[..3]));
    }
  }

  /** Two tables, and one selector more than there are places: all of them arrive. */
  function OneTooMany(): seq<bool> {
    BitsOf(3, 2) + BitsOf(15, BZ_MAX_SELECTORS + 1) + Zeros(BZ_MAX_SELECTORS + 1)
  }

  function Zeros(n: nat): (z: seq<bool>)
    ensures |z| == n && forall k :: 0 <= k < n ==> !z[k]
  {
    seq(n, _ => false)
  }

  lemma {:induction false} ZerosArrive(n: nat, nGroups: nat, more: seq<bool>)
    requires 1 <= nGroups
    ensures Arriving(Zeros(n) + more, 0, n, nGroups) == n
    decreases n
  {
    if n > 0 {
      assert (Zeros(n) + more)[1..] == Zeros(n - 1) + more && !(Zeros(n) + more)[0];
      ZerosArrive(n - 1, nGroups, more);
    }
  }

  lemma OutsideExample(more: seq<bool>)
    ensures ReadSelectors(OneTooMany() + more) == Stop(TooMany)
  {
    assert Pow2(3) == 8 && Pow2(8) == 256 && Pow2(15) == 0x8000;
    hide *;
    var n := BZ_MAX_SELECTORS + 1;
    MaxSelectorsIs();
    OneTooManyIs();
    TwoFieldsAndRest(BitsOf(3, 2), BitsOf(15, n), Zeros(n), more);
    ValueOfBits(3, 2);
    ValueOfBits(15, n);
    ZerosArrive(n, 2, more);
    OutsideExactly(OneTooMany() + more);
  }

  lemma MaxSelectorsIs()
    ensures BZ_MAX_SELECTORS == 18002
  {
  }

  lemma OneTooManyIs()
    ensures OneTooMany() == BitsOf(3, 2) + BitsOf(15, BZ_MAX_SELECTORS + 1) + Zeros(BZ_MAX_SELECTORS + 1)
  {
  }

  lemma InFirstList(n: nat, s: seq<byte>)
    requires n <= 256
    ensures (forall i :: 0 <= i < |s| ==> s[i] < n) <==> (forall i :: 0 <= i < |s| ==> s[i] in FirstList(n))
  {
    forall b: byte
      ensures b < n <==> b in FirstList(n)
    {
      if b < n { assert FirstList(n)[b] == b; }
    }
  }

  lemma ReadSelectorsParts(bits: seq<bool>, nGroups: nat, js: seq<nat>, more: seq<bool>)
    requires 2 <= nGroups <= 6 && |js| >= 1 && |bits| >= 18 && forall i :: 0 <= i < |js| ==> js[i] < nGroups
    requires Value(bits[..3]) == nGroups && Value(bits[3..18]) == |js|
    requires ReadPositions(bits[18..], 0, |js|, BZ_MAX_SELECTORS, nGroups) == Done(js, more)
    ensures ReadSelectors(bits) == Done(Table(nGroups, Selected(FirstList(nGroups), js)), more)
  {
    hide Value, ReadPositions;
    assert bits[3..][..15] == bits[3..18] && bits[3..][15..] == bits[18..];
  }

  /** The decoder reads back the number of tables and every selector. */
  lemma SelectorsRoundTrip(nGroups: nat, sel: seq<byte>, more: seq<bool>)
    requires 2 <= nGroups <= 6 && 1 <= |sel| <= BZ_MAX_SELECTORS
    requires forall i :: 0 <= i < |sel| ==> sel[i] in FirstList(nGroups)
    ensures var js := Positions(FirstList(nGroups), sel);
            ReadSelectors(SelectorBits(nGroups, js) + more) == Done(Table(nGroups, sel), more)
  {
    var js := Positions(FirstList(nGroups), sel);
    assert Pow2(3) == 8 && Pow2(8) == 256 && Pow2(15) == 0x8000;
    hide *;
    MaxSelectorsIs();
    TwoFieldsAndRest(BitsOf(3, nGroups), BitsOf(15, |js|), PositionBits(js), more);
    ValueOfBits(3, nGroups);
    ValueOfBits(15, |js|);
    PositionsRoundTrip(js, BZ_MAX_SELECTORS, nGroups, more);
    SelectedPositions(FirstList(nGroups), sel);
    SelectorBitsIs(nGroups, js);
    ReadSelectorsParts(SelectorBits(nGroups, js) + more, nGroups, js, more);
  }

  lemma SelectorBitsIs(nGroups: nat, js: seq<nat>)
    ensures SelectorBits(nGroups, js) == BitsOf(3, nGroups) + BitsOf(15, |js|) + PositionBits(js)
  {
  }

  lemma TwoFieldsAndRest(a: seq<bool>, b: seq<bool>, c: seq<bool>, more: seq<bool>)
    ensures var bits := a + b + c + more;
            bits[..|a|] == a && bits[|a|..|a| + |b|] == b && bits[|a| + |b|..] == c + more
  {
  }

  // Writing them.

  /** One selector is searched in pos, everything before it moves up by one. */
  method MoveSelector(pos: array<byte>, ll: byte, ghost m: nat) returns (j: nat)
    requires m <= pos.Length && ll in pos[..m]
    modifies pos
    ensures j == Position(old(pos[..m]), ll) && pos[..m] == ToFront(old(pos[..m]), j)
  {
    ghost var pos0 := pos[..];
    ghost var p := Position(pos[..m], ll);
    assert pos[..m][p] == ll;
    j := 0;
    var tmp := pos[j];
    while ll != tmp
      invariant 0 <= j <= p && tmp == pos0[j] && Sliding(pos0, pos[..], j)
      invariant forall i :: 0 <= i < j ==> pos0[i] != ll
      decreases p - j
    {
      j := j + 1;
      var tmp2 := tmp;
      tmp := pos[j];
      pos[j] := tmp2;
    }
    pos[0] := tmp;
    assert pos0[..m] == old(pos[..m]);
    FirstIs(pos0[..m], ll, j);
    SlidingDone(pos0, pos[..], j, m);
  }

  ghost predicate Listable(pos: seq<byte>, sel: seq<byte>, i: nat) {
    i <= |sel| && forall k :: i <= k < |sel| ==> sel[k] in pos
  }

  lemma PositionsNext(p: seq<nat>, pos: seq<byte>, sel: seq<byte>, i: nat)
    requires Listable(pos, sel, i) && i < |sel|
    ensures sel[i] in pos && Listable(ToFront(pos, Position(pos, sel[i])), sel, i + 1)
    ensures p + Positions(pos, sel[i..])
         == p + [Position(pos, sel[i])] + Positions(ToFront(pos, Position(pos, sel[i])), sel[i + 1..])
  {
    hide ToFront, Position;
    var j := Position(pos, sel[i]);
    ToFrontKeeps(pos, j);
    assert sel[i..][1..] == sel[i + 1..] && sel[i..][0] == sel[i];
    assert Positions(pos, sel[i..]) == [j] + Positions(ToFront(pos, j), sel[i + 1..]);
    hide Positions;
    OneFirst(p, j, Positions(ToFront(pos, j), sel[i + 1..]));
  }

  /** Compute MTF values for the selectors. */
  method EncodeSelectors(selector: array<byte>, selectorMtf: array<nat>, nSelectors: nat, nGroups: nat)
    requires selector as object != selectorMtf && 1 <= nGroups <= 6
    requires nSelectors <= selector.Length && nSelectors <= selectorMtf.Length
    requires forall i :: 0 <= i < nSelectors ==> selector[..nSelectors][i] in FirstList(nGroups)
    modifies selectorMtf
    ensures selectorMtf[..nSelectors] == Positions(FirstList(nGroups), selector[..nSelectors])
  {
    hide Positions, ToFront, Position;
    ghost var sel := selector[..nSelectors];
    var pos := new byte[6];
    var i := 0;
    while i < nGroups
      invariant 0 <= i <= nGroups && forall k :: 0 <= k < i ==> pos[k] == k
    {
      pos[i] := i;
      i := i + 1;
    }
    assert pos[..nGroups] == FirstList(nGroups);
    ghost var full := Positions(FirstList(nGroups), sel);
    i := 0;
    assert sel[0..] == sel && selectorMtf[..0] + full == full;
    while i < nSelectors
      invariant 0 <= i <= nSelectors && selector[..nSelectors] == sel && Listable(pos[..nGroups], sel, i)
      invariant selectorMtf[..i] + Positions(pos[..nGroups], sel[i..]) == full
    {
      PositionsNext(selectorMtf[..i], pos[..nGroups], sel, i);
      ghost var before := selectorMtf[..i];
      assert selector[i] == sel[i];
      var j := MoveSelector(pos, selector[i], nGroups);
      selectorMtf[i] := j;
      assert selectorMtf[..i + 1] == before + [j];
      i := i + 1;
    }
    NoMorePositions(selectorMtf[..nSelectors], pos[..nGroups], sel);
  }

  lemma NoMorePositions(p: seq<nat>, pos: seq<byte>, sel: seq<byte>)
    ensures p + Positions(pos, sel[|sel|..]) == p
  {
  }

  lemma PositionBitsNext(s: seq<bool>, js: seq<nat>, i: nat)
    requires i < |js|
    ensures s + PositionBits(js[i..]) == s + Ones(js[i]) + [false] + PositionBits(js[i + 1..])
  {
    assert js[i..][1..] == js[i + 1..];
    assert s + (Ones(js[i]) + [false] + PositionBits(js[i + 1..])) == s + Ones(js[i]) + [false] + PositionBits(js[i + 1..]);
  }

  lemma OneMore(s: seq<bool>, j: nat)
    ensures s + Ones(j) + [true] == s + Ones(j + 1) && s + Ones(0) == s
  {
  }

  /** k ones and a zero. */
  method WriteUnary(w: Writer, k: nat)
    requires w.Valid() && |w.Written()| + k + 1 <= 8 * w.zbits.Length
    modifies w, w.zbits
    ensures w.Valid() && w.Written() == old(w.Written()) + Ones(k) + [false]
  {
    hide *;
    ghost var s := w.Written();
    OneMore(s, 0);
    var j := 0;
    while j < k
      invariant 0 <= j <= k && w.Valid() && w.Written() == s + Ones(j)
    {
      OneMore(s, j);
      WriteBit(w, true);
      j := j + 1;
    }
    WriteBit(w, false);
  }

  /** Now the selectors. */
  method WriteSelectors(w: Writer, selectorMtf: array<nat>, nSelectors: nat, nGroups: nat)
    requires w.Valid() && nSelectors <= selectorMtf.Length && selectorMtf as object != w.zbits
    requires nSelectors < 0x8000 && nGroups <= 6
    requires |w.Written()| + |SelectorBits(nGroups, selectorMtf[..nSelectors])| <= 8 * w.zbits.Length
    modifies w, w.zbits
    ensures w.Valid() && w.Written() == old(w.Written()) + SelectorBits(nGroups, selectorMtf[..nSelectors])
  {
    assert Pow2(3) == 8 && Pow2(8) == 256 && Pow2(15) == 0x8000;
    hide *;
    ghost var js, s := selectorMtf[..nSelectors], w.Written();
    ghost var full := s + SelectorBits(nGroups, js);
    SelectorBitsIs(nGroups, js);
    w.W(3, nGroups);
    w.W(15, nSelectors);
    assert js[0..] == js;
    Regroup(s, BitsOf(3, nGroups), BitsOf(15, nSelectors), PositionBits(js));
    var i := 0;
    while i < nSelectors
      invariant 0 <= i <= nSelectors && w.Valid() && selectorMtf[..nSelectors] == js
      invariant w.Written() + PositionBits(js[i..]) == full
    {
      ghost var now := w.Written();
      PositionBitsNext(now, js, i);
      assert selectorMtf[i] == js[i];
      WriteUnary(w, selectorMtf[i]);
      i := i + 1;
    }
    NoPositions(w.Written(), js);
  }

  lemma Regroup(s: seq<bool>, a: seq<bool>, b: seq<bool>, c: seq<bool>)
    ensures s + (a + b + c) == s + a + b + c
  {
  }

  lemma NoPositions(s: seq<bool>, js: seq<nat>)
    ensures s + PositionBits(js[|js|..]) == s
  {
  }

  // Reading them.

  /** pos with its first v + 1 elements rotated: all but the front one are in place from k on. */
  ghost predicate Rotating(pos: seq<byte>, now: seq<byte>, k: nat, v: nat) {
    && |now| == |pos| && k <= v < |pos|
    && (forall i :: k < i <= v ==> now[i] == pos[i - 1])
    && (forall i :: 0 <= i < |pos| && !(k < i <= v) ==> now[i] == pos[i])
  }

  /** The selector at position v is moved to the front. */
  method TakeSelector(pos: array<byte>, v0: nat, ghost m: nat) returns (tmp: byte)
    requires v0 < m <= pos.Length
    modifies pos
    ensures tmp == old(pos[..m])[v0] && pos[..m] == ToFront(old(pos[..m]), v0)
  {
    ghost var pos0 := pos[..];
    var v := v0;
    tmp := pos[v];
    while v > 0
      invariant 0 <= v <= v0 && Rotating(pos0, pos[..], v, v0)
    {
      pos[v] := pos[v - 1];
      v := v - 1;
    }
    pos[0] := tmp;
    assert pos0[..m] == old(pos[..m]);
    SlidingDone(pos0, pos[..], v0, m);
  }

  lemma SelectedFirst(pos: seq<byte>, js: seq<nat>)
    requires js != [] && forall k :: 0 <= k < |js| ==> js[k] < |pos|
    ensures Selected(pos, js) == [pos[js[0]]] + Selected(ToFront(pos, js[0]), js[1..])
  {
  }

  lemma OneFirst<T>(p: seq<T>, x: T, s: seq<T>)
    ensures p + ([x] + s) == p + [x] + s
  {
  }

  lemma SelectedNext(p: seq<byte>, pos: seq<byte>, js: seq<nat>)
    requires js != [] && forall k :: 0 <= k < |js| ==> js[k] < |pos|
    ensures p + Selected(pos, js) == p + [pos[js[0]]] + Selected(ToFront(pos, js[0]), js[1..])
  {
    hide *;
    SelectedFirst(pos, js);
    OneFirst(p, pos[js[0]], Selected(ToFront(pos, js[0]), js[1..]));
  }

  lemma NothingSelected(p: seq<byte>, pos: seq<byte>, js: seq<nat>)
    ensures p + Selected(pos, js[|js|..]) == p
  {
  }

  /** Undo the MTF values for the selectors. */
  method DecodeSelectors(selector: array<byte>, selectorMtf: array<nat>, nSelectors: nat, nGroups: nat)
    requires selector as object != selectorMtf && 2 <= nGroups <= 6
    requires nSelectors <= selector.Length && nSelectors <= selectorMtf.Length
    requires forall i :: 0 <= i < nSelectors ==> selectorMtf[..nSelectors][i] < nGroups
    modifies selector
    ensures selector[..nSelectors] == Selected(FirstList(nGroups), selectorMtf[..nSelectors])
  {
    hide Selected, ToFront;
    ghost var js := selectorMtf[..nSelectors];
    var pos := new byte[6];
    var v := 0;
    while v < nGroups
      invariant 0 <= v <= nGroups && forall k :: 0 <= k < v ==> pos[k] == k
    {
      pos[v] := v;
      v := v + 1;
    }
    assert pos[..nGroups] == FirstList(nGroups);
    ghost var full := Selected(FirstList(nGroups), js);
    var i := 0;
    assert js[0..] == js && selector[..0] + full == full;
    while i < nSelectors
      invariant 0 <= i <= nSelectors && selectorMtf[..nSelectors] == js
      invariant selector[..i] + Selected(pos[..nGroups], js[i..]) == full
    {
      ghost var before := selector[..i];
      SelectedNext(before, pos[..nGroups], js[i..]);
      assert selectorMtf[i] == js[i] == js[i..][0] && js[i..][1..] == js[i + 1..];
      var tmp := TakeSelector(pos, selectorMtf[i], nGroups);
      selector[i] := tmp;
      assert selector[..i + 1] == before + [tmp];
      i := i + 1;
    }
    NothingSelected(selector[..nSelectors], pos[..nGroups], js);
  }

  /** Where receiving the selectors can be interrupted, with the locals that are saved there: BZ_X_SELECTOR_1 to 3. */
  datatype SelAt = Selector1 | Selector2(nGroups: nat) | Selector3(nGroups: nat, nSelectors: nat, i: nat, j: nat)

  class SelectorTable {
    const selectorMtf: array<nat>
    const selector: array<byte>
    ghost const Repr: set<object>

    ghost predicate Valid()
    {
      selectorMtf.Length == selector.Length == BZ_MAX_SELECTORS && Repr == {this, selectorMtf, selector} && selectorMtf as object != selector
    }

    constructor ()
      ensures Valid() && fresh(Repr)
    {
      selectorMtf := new nat[BZ_MAX_SELECTORS];
      selector := new byte[BZ_MAX_SELECTORS];
      Repr := {this, selectorMtf, selector};
    }

    /** At label at: in BZ_X_SELECTOR_3, i positions are there and j ones of the next have been read. */
    ghost predicate Stands(at: SelAt)
      requires Valid()
      reads this, selectorMtf
    {
      match at
      case Selector1 => true
      case Selector2(nGroups) => 2 <= nGroups <= 6
      case Selector3(nGroups, nSelectors, i, j) =>
        && 2 <= nGroups <= 6 && i < nSelectors && i <= BZ_MAX_SELECTORS && j < nGroups
        && forall k :: 0 <= k < i ==> selectorMtf[..i][k] < nGroups
    }

    /** What reading on from label at gives. */
    ghost function Rest(at: SelAt, bits: seq<bool>): (t: Read<Table>)
      requires Valid() && Stands(at)
      reads this, selectorMtf
      ensures t.Done? ==> t.value.nGroups <= 6 && forall i :: 0 <= i < |t.value.sel| ==> t.value.sel[i] in FirstList(t.value.nGroups)
    {
      match at
      case Selector1 => ReadSelectors(bits)
      case Selector2(nGroups) => ReadCount(bits, nGroups)
      case Selector3(nGroups, nSelectors, i, j) =>
        SelectedTable(Prepend(selectorMtf[..i], ReadPositions(bits, j, nSelectors - i, BZ_MAX_SELECTORS - i, nGroups)), nGroups)
    }

    lemma TableIs()
      ensures Valid() <==> selectorMtf.Length == selector.Length == BZ_MAX_SELECTORS && Repr == {this, selectorMtf, selector}
                           && selectorMtf as object != selector
    {
    }

    lemma StandsIs(at: SelAt, bits: seq<bool>)
      requires Valid()
      ensures at.Selector1? ==> Stands(at) && Rest(at, bits) == ReadSelectors(bits)
      ensures at.Selector2? ==> (Stands(at) <==> 2 <= at.nGroups <= 6)
      ensures at.Selector2? && Stands(at) ==> Rest(at, bits) == ReadCount(bits, at.nGroups)
      ensures at.Selector3? ==>
                (Stands(at) <==>
                   && 2 <= at.nGroups <= 6 && at.i < at.nSelectors && at.i <= BZ_MAX_SELECTORS && at.j < at.nGroups
                   && forall k :: 0 <= k < at.i ==> selectorMtf[..at.i][k] < at.nGroups)
      ensures at.Selector3? && Stands(at) ==>
                Rest(at, bits) == FromPosition(selectorMtf[..at.i], bits, at.j, at.nSelectors - at.i, BZ_MAX_SELECTORS - at.i, at.nGroups)
    {
    }

    /** The positions from position i on, j ones of which have been read. The source goes on writing where Failed(TooMany) is returned. */
    method ReceivePositions(r: Reader, nGroups: nat, nSelectors: nat, i0: nat, j0: nat, ghost more: seq<bool>)
      returns (st: Status, i: nat, j: nat)
      requires Valid() && r.Valid() && r !in Repr && Stands(Selector3(nGroups, nSelectors, i0, j0))
      modifies r, selectorMtf
      ensures r.Valid() && |r.Unread()| <= |old(r.Unread())| && (st == Ok ==> |r.Unread()| < |old(r.Unread())|)
      ensures var was := old(Rest(Selector3(nGroups, nSelectors, i0, j0), r.Ahead(more)));
              && (st == Ok ==>
                    && nSelectors <= BZ_MAX_SELECTORS && (forall k :: 0 <= k < nSelectors ==> selectorMtf[..nSelectors][k] < nGroups)
                    && was == Done(Table(nGroups, Selected(FirstList(nGroups), selectorMtf[..nSelectors])), r.Ahead(more)))
              && (st == Waiting ==>
                    && r.input == [] && Stands(Selector3(nGroups, nSelectors, i, j))
                    && was == Rest(Selector3(nGroups, nSelectors, i, j), r.Ahead(more))
                    && Rest(Selector3(nGroups, nSelectors, i, j), r.Unread()) == Stop(NeedInput))
              && (st.Failed? ==> was == Stop(st.why) && st.why != NeedInput)
    {
      hide *;
      TableIs();
      MaxSelectorsIs();
      StandsIs(Selector3(nGroups, nSelectors, i0, j0), r.Ahead(more));
      ghost var was := Rest(Selector3(nGroups, nSelectors, i0, j0), r.Ahead(more));
      i, j := i0, j0;
      while i < nSelectors
        invariant i0 <= i <= nSelectors && i <= BZ_MAX_SELECTORS && j < nGroups && r.Valid() && selectorMtf.Length == BZ_MAX_SELECTORS
        invariant |r.Unread()| <= |old(r.Unread())| && (i == nSelectors ==> |r.Unread()| < |old(r.Unread())|)
        invariant forall k :: 0 <= k < i ==> selectorMtf[..i][k] < nGroups
        invariant was == FromPosition(selectorMtf[..i], r.Ahead(more), j, nSelectors - i, BZ_MAX_SELECTORS - i, nGroups)
        decreases |r.Unread()|
      {
        ghost var p := selectorMtf[..i];
        PositionOn(p, r.Ahead(more), j, nSelectors - i, BZ_MAX_SELECTORS - i, nGroups);
        PositionOn(p, r.Unread(), j, nSelectors - i, BZ_MAX_SELECTORS - i, nGroups);
        var ok, uc := r.GetBit(more);
        if !ok {
          StandsIs(Selector3(nGroups, nSelectors, i, j), r.Ahead(more));
          StandsIs(Selector3(nGroups, nSelectors, i, j), r.Unread());
          return Waiting, i, j;
        }
        if uc {
          j := j + 1;
          if j >= nGroups { return Failed(DataError), i, j; }
        } else {
          if i >= BZ_MAX_SELECTORS { return Failed(TooMany), i, j; }
          selectorMtf[i] := j;
          assert selectorMtf[..i + 1] == p + [j];
          i, j := i + 1, 0;
        }
      }
      PositionsEnd(selectorMtf[..nSelectors], r.Ahead(more), BZ_MAX_SELECTORS - nSelectors, nGroups);
      st := Ok;
    }

    /** Now the selectors. */
    method Receive(r: Reader, at0: SelAt, ghost more: seq<bool>) returns (st: Status, at: SelAt, nGroups: nat, nSelectors: nat)
      requires Valid() && r.Valid() && r !in Repr && Stands(at0)
      modifies r, selectorMtf, selector
      ensures r.Valid() && |r.Unread()| <= |old(r.Unread())| && (st == Ok ==> |r.Unread()| < |old(r.Unread())|)
      ensures (st == Waiting ==> Stands(at) && r.input == []) && (st == Ok ==> 2 <= nGroups <= 6 && 1 <= nSelectors <= BZ_MAX_SELECTORS)
      ensures Resumes(st, Table(nGroups, if st == Ok then selector[..nSelectors] else []), r.Ahead(more), old(Rest(at0, r.Ahead(more))),
                      if st == Waiting then Rest(at, r.Ahead(more)) else Stop(NeedInput),
                      if st == Waiting then Rest(at, r.Unread()) else Stop(NeedInput))
    {
      hide *;
      TableIs();
      at, nGroups, nSelectors := at0, 0, 0;
      ghost var was := Rest(at0, r.Ahead(more));
      StandsIs(at, r.Ahead(more));
      var ok;
      if at == Selector1 {
        StandsIs(at, r.Unread());
        SelectorsOn(r.Ahead(more));
        SelectorsOn(r.Unread());
        ok, nGroups := r.GetBits(3, more);
        if !ok {
          ResumesIs(Waiting, Table(nGroups, []), r.Ahead(more), was, Rest(at, r.Ahead(more)), Rest(at, r.Unread()));
          return Waiting, at, nGroups, nSelectors;
        }
        if nGroups < 2 || nGroups > 6 {
          ResumesIs(Failed(DataError), Table(nGroups, []), r.Ahead(more), was, Stop(NeedInput), Stop(NeedInput));
          return Failed(DataError), at, nGroups, nSelectors;
        }
        at := Selector2(nGroups);
        StandsIs(at, r.Ahead(more));
      }
      if at.Selector2? {
        StandsIs(at, r.Unread());
        nGroups := at.nGroups;
        CountOn(r.Ahead(more), nGroups);
        CountOn(r.Unread(), nGroups);
        ok, nSelectors := r.GetBits(15, more);
        if !ok {
          ResumesIs(Waiting, Table(nGroups, []), r.Ahead(more), was, Rest(at, r.Ahead(more)), Rest(at, r.Unread()));
          return Waiting, at, nGroups, nSelectors;
        }
        if nSelectors < 1 {
          ResumesIs(Failed(DataError), Table(nGroups, []), r.Ahead(more), was, Stop(NeedInput), Stop(NeedInput));
          return Failed(DataError), at, nGroups, nSelectors;
        }
        at := Selector3(nGroups, nSelectors, 0, 0);
        StandsIs(at, r.Ahead(more));
        assert selectorMtf[..0] == [];
      }
      nGroups, nSelectors := at.nGroups, at.nSelectors;
      StandsIs(at, r.Ahead(more));
      var i, j;
      st, i, j := ReceivePositions(r, nGroups, nSelectors, at.i, at.j, more);
      if st == Ok { DecodeSelectors(selector, selectorMtf, nSelectors, nGroups); }
      at := Selector3(nGroups, nSelectors, i, j);
      ResumesIs(st, Table(nGroups, if st == Ok then selector[..nSelectors] else []), r.Ahead(more), was,
                if st == Waiting then Rest(at, r.Ahead(more)) else Stop(NeedInput),
                if st == Waiting then Rest(at, r.Unread()) else Stop(NeedInput));
    }
  }

  /** The table whose first positions are p. */
  ghost function FromPosition(p: seq<nat>, bits: seq<bool>, j: nat, n: nat, room: nat, nGroups: nat): Read<Table>
    requires j < nGroups <= 6 && forall k :: 0 <= k < |p| ==> p[k] < nGroups
  {
    SelectedTable(Prepend(p, ReadPositions(bits, j, n, room, nGroups)), nGroups)
  }

  lemma PositionOn(p: seq<nat>, bits: seq<bool>, j: nat, n: nat, room: nat, nGroups: nat)
    requires j < nGroups <= 6 && n > 0 && forall k :: 0 <= k < |p| ==> p[k] < nGroups
    ensures bits == [] ==> FromPosition(p, bits, j, n, room, nGroups) == Stop(NeedInput)
    ensures bits != [] && bits[0] && j + 1 >= nGroups ==> FromPosition(p, bits, j, n, room, nGroups) == Stop(DataError)
    ensures bits != [] && bits[0] && j + 1 < nGroups ==>
              FromPosition(p, bits, j, n, room, nGroups) == FromPosition(p, bits[1..], j + 1, n, room, nGroups)
    ensures bits != [] && !bits[0] && room == 0 ==> FromPosition(p, bits, j, n, room, nGroups) == Stop(TooMany)
    ensures bits != [] && !bits[0] && room > 0 ==>
              FromPosition(p, bits, j, n, room, nGroups) == FromPosition(p + [j], bits[1..], 0, n - 1, room - 1, nGroups)
  {
    if bits != [] && !bits[0] && room > 0 {
      PrependPrepend(p, [j], ReadPositions(bits[1..], 0, n - 1, room - 1, nGroups));
    }
  }

  lemma PositionsEnd(p: seq<nat>, bits: seq<bool>, room: nat, nGroups: nat)
    requires 0 < nGroups <= 6 && forall k :: 0 <= k < |p| ==> p[k] < nGroups
    ensures forall j: nat :: j < nGroups ==>
              FromPosition(p, bits, j, 0, room, nGroups) == Done(Table(nGroups, Selected(FirstList(nGroups), p)), bits)
  {
    assert p + [] == p;
  }

  lemma SelectorsOn(bits: seq<bool>)
    ensures |bits| < 3 ==> ReadSelectors(bits) == Stop(NeedInput)
    ensures |bits| >= 3 && (Value(bits[..3]) < 2 || Value(bits[..3]) > 6) ==> ReadSelectors(bits) == Stop(DataError)
    ensures |bits| >= 3 && 2 <= Value(bits[..3]) <= 6 ==> ReadSelectors(bits) == ReadCount(bits[3..], Value(bits[..3]))
  {
  }

  lemma CountOn(bits: seq<bool>, nGroups: nat)
    requires 2 <= nGroups <= 6
    ensures |bits| < 15 ==> ReadCount(bits, nGroups) == Stop(NeedInput)
    ensures |bits| >= 15 && Value(bits[..15]) < 1 ==> ReadCount(bits, nGroups) == Stop(DataError)
    ensures |bits| >= 15 && Value(bits[..15]) >= 1 ==>
              ReadCount(bits, nGroups) == FromPosition([], bits[15..], 0, Value(bits[..15]), BZ_MAX_SELECTORS, nGroups)
  {
    if |bits| >= 15 {
      PrependPrepend([], [], ReadPositions(bits[15..], 0, Value(bits[..15]), BZ_MAX_SELECTORS, nGroups));
    }
  }
}
