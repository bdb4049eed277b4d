/** inflate_table (dep/zlib/inftrees.c): the construction of the decoding tables. */
module InflateTable {
  import opened Bits
  import opened CountingOrder
  import opened HuffmanCode
  import opened LowBits
  import opened InflateCode
  import opened InflateEntries

  // Replicating an entry.

  /** The entry has been written for all indices whose part behind v is at least j. */
  ghost predicate Partly(t0: seq<Entry>, t: seq<Entry>, base: nat, curr: nat, v: seq<bool>, e: Entry, j: nat) {
    && |t| == |t0| && |v| <= curr && base + Pow2(curr) <= |t|
    && (forall y :: |y| == curr ==>
          base + LowValue(y) < |t| &&
          t[base + LowValue(y)] == if y[..|v|] == v && LowValue(y[|v|..]) >= j then e else t0[base + LowValue(y)])
    && forall i :: 0 <= i < |t| && (i < base || base + Pow2(curr) <= i) ==> t[i] == t0[i]
  }

  lemma PartlyNone(t: seq<Entry>, base: nat, curr: nat, v: seq<bool>, e: Entry)
    requires |v| <= curr && base + Pow2(curr) <= |t|
    ensures Partly(t, t, base, curr, v, e, Pow2(curr - |v|))
  {
    forall y: seq<bool> | |y| == curr
      ensures LowValue(y) < Pow2(curr) && LowValue(y[|v|..]) < Pow2(curr - |v|)
    {
    }
    hide LowValue, Pow2;
  }

  lemma PartlyAll(t0: seq<Entry>, t: seq<Entry>, base: nat, curr: nat, v: seq<bool>, e: Entry)
    requires Partly(t0, t, base, curr, v, e, 0)
    ensures Written(t0, t, base, curr, v, e)
  {
    hide LowValue, Pow2;
  }

  /** The index written next. */
  lemma PartlySlot(curr: nat, v: seq<bool>, j: nat) returns (y: seq<bool>)
    requires |v| <= curr && j < Pow2(curr - |v|)
    ensures |y| == curr && y[..|v|] == v && LowValue(y[|v|..]) == j && LowValue(y) == LowValue(v) + Shl(j, |v|) < Pow2(curr)
  {
    var z := LowestBits(curr - |v|, j);
    ValueOfLowest(curr - |v|, j);
    LowValueConcat(v, z);
    y := v + z;
    assert y[..|v|] == v && y[|v|..] == z;
  }

  lemma PartlyStep(t0: seq<Entry>, t: seq<Entry>, base: nat, curr: nat, v: seq<bool>, e: Entry, j: nat, s: seq<bool>)
    requires Partly(t0, t, base, curr, v, e, j + 1) && |s| == curr && s[..|v|] == v && LowValue(s[|v|..]) == j
    ensures base + LowValue(s) < |t| && base <= base + LowValue(s) < base + Pow2(curr)
    ensures Partly(t0, t[base + LowValue(s) := e], base, curr, v, e, j)
  {
    hide *;
    PartlyAt(t0, t, base, curr, v, e, j + 1, s);
    PartlySize(t0, t, base, curr, v, e, j + 1);
    var t' := t[base + LowValue(s) := e];
    forall y: seq<bool> | |y| == curr
      ensures base + LowValue(y) < |t'|
      ensures t'[base + LowValue(y)] == if y[..|v|] == v && LowValue(y[|v|..]) >= j then e else t0[base + LowValue(y)]
    {
      PartlyAt(t0, t, base, curr, v, e, j + 1, y);
      if LowValue(y) == LowValue(s) { LowValueApart(y, s); }
      if y[..|v|] == v && LowValue(y[|v|..]) == j {
        LowValueApart(y[|v|..], s[|v|..]);
        assert y == y[..|v|] + y[|v|..] && s == s[..|v|] + s[|v|..];
      }
    }
    PartlyFrom(t0, t', base, curr, v, e, j);
  }

  lemma PartlySize(t0: seq<Entry>, t: seq<Entry>, base: nat, curr: nat, v: seq<bool>, e: Entry, j: nat)
    requires Partly(t0, t, base, curr, v, e, j)
    ensures |t| == |t0| && |v| <= curr && base + Pow2(curr) <= |t|
    ensures forall i :: 0 <= i < |t| && (i < base || base + Pow2(curr) <= i) ==> t[i] == t0[i]
  {
    hide LowValue, Pow2;
  }

  lemma PartlyFrom(t0: seq<Entry>, t: seq<Entry>, base: nat, curr: nat, v: seq<bool>, e: Entry, j: nat)
    requires |t| == |t0| && |v| <= curr && base + Pow2(curr) <= |t|
    requires forall y :: |y| == curr ==>
               (base + LowValue(y) < |t| &&
                t[base + LowValue(y)] == if y[..|v|] == v && LowValue(y[|v|..]) >= j then e else t0[base + LowValue(y)])
    requires forall i :: 0 <= i < |t| && (i < base || base + Pow2(curr) <= i) ==> t[i] == t0[i]
    ensures Partly(t0, t, base, curr, v, e, j)
  {
    hide LowValue, Pow2;
  }

  lemma PartlyAt(t0: seq<Entry>, t: seq<Entry>, base: nat, curr: nat, v: seq<bool>, e: Entry, j: nat, y: seq<bool>)
    requires Partly(t0, t, base, curr, v, e, j) && |y| == curr
    ensures |t| == |t0| && |v| <= |y| && base + LowValue(y) < |t|
    ensures t[base + LowValue(y)] == if y[..|v|] == v && LowValue(y[|v|..]) >= j then e else t0[base + LowValue(y)]
  {
    hide LowValue, Pow2;
  }

  /** The entry is replicated for all indices whose low bits are the code. */
  method Replicate(table: array<Entry>, next: nat, curr: nat, h: nat, k: nat, e: Entry, ghost v: seq<bool>)
    requires |v| == k <= curr && h == LowValue(v) && next + Pow2(curr) <= table.Length
    modifies table
    ensures Written(old(table[..]), table[..], next, curr, v, e)
  {
    hide *;
    ghost var t0 := table[..];
    PartlyNone(t0, next, curr, v, e);
    ghost var j: nat := Pow2(curr - k);
    var incr, fill := Pow2(k), Pow2(curr);
    ProductOfPowers(curr, k);
    while fill != 0
      invariant fill == Shl(j, k) && incr == Pow2(k) && Partly(t0, table[..], next, curr, v, e, j) && j <= Pow2(curr - k)
      decreases j
    {
      ShlZero(j, k);
      ShlBack(j, k);
      fill := fill - incr;
      ghost var s := PartlySlot(curr, v, j - 1);
      ghost var t := table[..];
      PartlyStep(t0, t, next, curr, v, e, j - 1, s);
      table[next + h + fill] := e;
      assert table[..] == t[next + LowValue(s) := e];
      j := j - 1;
    }
    ShlZero(j, k);
    PartlyAll(t0, table[..], next, curr, v, e);
  }

  lemma ProductOfPowers(curr: nat, k: nat)
    requires k <= curr
    ensures Pow2(curr) == Shl(Pow2(curr - k), k) && Pow2(curr) != 0
  {
    Pow2Sum(curr - k, k);
  }

  lemma ShlZero(j: nat, k: nat)
    ensures Shl(j, k) == 0 <==> j == 0
  {
  }

  lemma ShlBack(j: nat, k: nat)
    requires j > 0
    ensures Shl(j - 1, k) == Shl(j, k) - Pow2(k)
  {
    ShlNext(j - 1, k);
  }

  // The next code.

  /** Counting up in a string whose last bits from i + 1 on are ones and whose bit i is not. */
  lemma {:induction false} CountUp(len: nat, c: nat, w: seq<bool>, i: nat)
    requires w == BitsOf(len, c) && i < len && !w[i] && forall k :: i < k < len ==> w[k]
    ensures BitsOf(len, c + 1) == w[..i] + [true] + Zeros(len - 1 - i)
    decreases len
  {
    var v := BitsOf(len - 1, c / 2);
    assert w == v + [c % 2 == 1];
    if i == len - 1 {
      assert (c + 1) / 2 == c / 2;
    } else {
      assert w[len - 1] && (c + 1) / 2 == c / 2 + 1;
      assert forall k :: 0 <= k < len - 1 ==> v[k] == w[k];
      CountUp(len - 1, c / 2, v, i);
      assert w[..i] == v[..i];
      assert Zeros(len - 1 - i) == Zeros(len - 2 - i) + [false];
    }
  }

  lemma {:induction false} CountOver(len: nat, c: nat, w: seq<bool>)
    requires w == BitsOf(len, c) && forall k :: 0 <= k < len ==> w[k]
    ensures BitsOf(len, c + 1) == Zeros(len)
    decreases len
  {
    if len > 0 {
      var v := BitsOf(len - 1, c / 2);
      assert w == v + [c % 2 == 1];
      assert w[len - 1] && forall k :: 0 <= k < len - 1 ==> v[k] == w[k];
      assert (c + 1) / 2 == c / 2 + 1;
      CountOver(len - 1, c / 2, v);
      assert Zeros(len) == Zeros(len - 1) + [false];
    }
  }

  lemma UpValue(w: seq<bool>, i: nat, n: nat)
    requires i <= |w|
    ensures LowValue(w[..i] + [true] + Zeros(n)) == LowValue(w[..i]) + Pow2(i)
  {
    hide *;
    var a := w[..i];
    LowValueConcat(a + [true], Zeros(n));
    ZerosAreZero(n);
    LowValueConcat(a, [true]);
    OneBit();
    ShlNext(0, i);
    ShlNothing(i);
    ShlNothing(i + 1);
  }

  lemma OneBit()
    ensures LowValue([true]) == 1
  {
  }

  lemma ShlNothing(n: nat)
    ensures Shl(0, n) == 0
  {
  }

  /** The len-bit code huff is counted up, its last bit being the highest. */
  method NextCode(huff0: nat, len: nat, ghost c: nat) returns (huff: nat)
    requires 1 <= len && huff0 == LowValue(BitsOf(len, c))
    ensures huff == LowValue(BitsOf(len, c + 1))
  {
    hide *;
    ghost var w := BitsOf(len, c);
    var i: int := len - 1;
    while i >= 0 && Shr(huff0, i) % 2 == 1
      invariant -1 <= i < len && forall k :: i < k < len ==> w[k]
    {
      BitAt(w, i);
      i := i - 1;
    }
    if i >= 0 {
      BitAt(w, i);
      CountUp(len, c, w, i);
      UpValue(w, i, len - 1 - i);
      LowValueSplit(w, i);
      huff := Low(huff0, i) + Pow2(i);
    } else {
      CountOver(len, c, w);
      ZerosAreZero(len);
      huff := 0;
    }
  }

  // The size of a sub-table.

  /** Codes longer than the sub-table's last bit do not begin with root bits q. */
  ghost predicate Fits(ls: seq<nat>, root: nat, q: nat, curr: nat, max: nat) {
    forall n :: root + curr < n <= max ==> FirstCode(ls, n) >= Shl(q + 1, n - root)
  }

  lemma LongerCodes(ls: seq<nat>, root: nat, q: nat, d: nat, max: nat)
    requires root <= d && FirstCode(ls, d) + Count(ls, d) >= Shl(q + 1, d - root)
    ensures Fits(ls, root, q, d - root, max)
  {
    hide Shl, FirstCode, Count;
    forall n | d < n <= max
      ensures FirstCode(ls, n) >= Shl(q + 1, n - root)
    {
      LaterCodes(ls, d, n);
      ShlShl(q + 1, d - root, n - d);
      ShlMonotone(Shl(q + 1, d - root), FirstCode(ls, d) + Count(ls, d), n - d);
    }
  }

  lemma FirstNext(ls: seq<nat>, n: nat)
    ensures FirstCode(ls, n + 1) == 2 * (FirstCode(ls, n) + Count(ls, n))
  {
  }

  /** What the counts hold: those of longer lengths in full, of length len what is left to be entered. */
  ghost predicate Counts(ls: seq<nat>, count: seq<nat>, len: nat, c: nat) {
    && |count| == 16 && 1 <= len <= 15
    && FirstCode(ls, len) <= c && c + count[len] == FirstCode(ls, len) + Count(ls, len)
    && forall n :: len < n <= 15 ==> count[n] == Count(ls, n)
  }

  lemma CountsAt(ls: seq<nat>, count: seq<nat>, len: nat, c: nat, n: nat)
    requires Counts(ls, count, len, c) && len <= n <= 15
    ensures |count| == 16 && 1 <= len <= 15 && FirstCode(ls, len) <= c
    ensures (if n == len then c else FirstCode(ls, n)) + count[n] == FirstCode(ls, n) + Count(ls, n)
  {
  }

  /** The number of index bits of the next table. */
  method SubTableSize(count: array<nat>, len: nat, root: nat, max: nat, ghost ls: seq<nat>, ghost c: nat, ghost q: nat)
    returns (curr: nat)
    requires 1 <= root < len <= max <= 15 && Counts(ls, count[..], len, c) && c == Shl(q, len - root)
    ensures 1 <= len - root <= curr && root + curr <= max && Fits(ls, root, q, curr, max)
  {
    hide *;
    CountsAt(ls, count[..], len, c, len);
    curr := len - root;
    var left: int := Pow2(curr);
    ShlNext(q, curr);
    while curr + root < max
      invariant len - root <= curr && root + curr <= max
      invariant left == Shl(q + 1, curr) - (if curr + root == len then c else FirstCode(ls, curr + root))
      decreases max - curr
    {
      CountsAt(ls, count[..], len, c, curr + root);
      left := left - count[curr + root];
      if left <= 0 {
        LongerCodes(ls, root, q, curr + root, max);
        return;
      }
      FirstNext(ls, curr + root);
      ShlNext(q + 1, curr);
      curr := curr + 1;
      left := 2 * left;
    }
    NothingLonger(ls, root, q, curr, max);
  }

  lemma NothingLonger(ls: seq<nat>, root: nat, q: nat, curr: nat, max: nat)
    requires root + curr >= max
    ensures Fits(ls, root, q, curr, max)
  {
  }

  // Which symbol comes next.

  /** work lists the symbols in use by length, and in order within a length. */
  ghost predicate Sorted(ls: seq<nat>, work: seq<nat>) {
    forall i :: 0 <= i < |ls| && ls[i] <= 15 ==> SortedPlace(ls, i) < |work| && work[SortedPlace(ls, i)] == i
  }

  /** The symbol at place sym has code c of length len. */
  lemma SymbolAt(ls: seq<nat>, work: seq<nat>, len: nat, c: nat, sym: nat)
    requires Sorted(ls, work) && len <= 15 && FirstCode(ls, len) <= c < FirstCode(ls, len) + Count(ls, len)
    requires sym == CountBelow(ls, len) + (c - FirstCode(ls, len))
    ensures sym < |work| && work[sym] < |ls| && ls[work[sym]] == len && CodeOf(ls, work[sym]) == c
    ensures sym < CountBelow(ls, len + 1)
  {
    var i := PlaceTaken(ls, len, c - FirstCode(ls, len));
    CountBelowNext(ls, len);
  }

  /** After the last code of one length comes the first code of the next length there is. */
  lemma NextSymbol(ls: seq<nat>, work: seq<nat>, len: nat, max: nat, sym: nat)
    requires Sorted(ls, work) && len < max <= 15 && Count(ls, max) > 0 && sym == CountBelow(ls, len + 1)
    ensures sym < |work| && work[sym] < |ls|
    ensures var n := ls[work[sym]];
            && len < n <= max && Count(ls, n) > 0 && sym == CountBelow(ls, n)
            && FirstCode(ls, n) == Shl(FirstCode(ls, len) + Count(ls, len), n - len)
  {
    CountBelowNext(ls, max);
    CountBelowMonotone(ls, len + 1, max);
    var i := PlaceCovered(ls, max + 1, sym);
    PlaceInRange(ls, i);
    if ls[i] <= len { CountBelowMonotone(ls, ls[i] + 1, len + 1); }
    if ls[i] > max { CountBelowMonotone(ls, max + 1, ls[i]); }
    CountBelowMonotone(ls, len + 1, ls[i]);
    hide Shl;
    NextLength(ls, len, ls[i]);
  }

  /** Lengths that leave room for all codes. */
  ghost predicate NotOver(ls: seq<nat>) {
    forall n :: 0 <= n <= 15 ==> FirstCode(ls, n) + Count(ls, n) <= Pow2(n)
  }

  lemma NotOverAt(ls: seq<nat>, n: nat)
    requires NotOver(ls) && n <= 15
    ensures FirstCode(ls, n) + Count(ls, n) <= Pow2(n)
  {
  }

  // The tables that have been begun.

  /** Slot idx lies in the sub-table that the root bits u lead to. */
  ghost predicate Holds(t: seq<Entry>, root: nat, u: seq<bool>, idx: nat) {
    && |u| == root && LowValue(u) < |t|
    && var e := t[LowValue(u)];
       IsLink(e) && e.bits == root && root + e.op <= 15 && Pow2(root) <= e.val <= idx < e.val + Pow2(e.op)
  }

  ghost predicate Owned(t: seq<Entry>, root: nat, top: nat, idx: nat) {
    exists u :: Holds(t, root, u, idx) && Value(u) <= top
  }

  /** Every slot behind the root table belongs to a sub-table, and no sub-table is led to by more than top. */
  ghost predicate AllOwned(t: seq<Entry>, root: nat, top: nat, used: nat) {
    forall idx :: Pow2(root) <= idx < used ==> Owned(t, root, top, idx)
  }

  lemma OwnedKept(t: seq<Entry>, t': seq<Entry>, root: nat, top: nat, top': nat, used: nat)
    requires AllOwned(t, root, top, used) && top <= top' && Pow2(root) <= |t| == |t'|
    requires forall u :: |u| == root && Value(u) <= top && LowValue(u) < Pow2(root) ==> t'[LowValue(u)] == t[LowValue(u)]
    ensures AllOwned(t', root, top', used)
  {
    hide LowValue, Pow2, Value;
    forall idx | Pow2(root) <= idx < used
      ensures Owned(t', root, top', idx)
    {
      assert Owned(t, root, top, idx);
      var u :| Holds(t, root, u, idx) && Value(u) <= top;
      LowBound(u);
      assert Holds(t', root, u, idx);
    }
  }

  lemma LowBound(u: seq<bool>)
    ensures LowValue(u) < Pow2(|u|)
  {
  }

  lemma OwnedByNew(t: seq<Entry>, root: nat, u: seq<bool>, curr: nat, next: nat, top: nat, used: nat)
    requires AllOwned(t, root, top, next) && used == next + Pow2(curr) && Value(u) == top
    requires InSub(t, root, Sub(u, curr, next))
    ensures AllOwned(t, root, top, used)
  {
    hide LowValue, Pow2, Value;
    forall idx | Pow2(root) <= idx < used
      ensures Owned(t, root, top, idx)
    {
      if idx < next {
        assert Owned(t, root, top, idx);
      } else {
        LinkIs(curr, root, next);
        assert Holds(t, root, u, idx);
      }
    }
  }

  // The state of the loop.

  /** Where the table being filled is. drop is 0 while that is the root table. */
  datatype Where = Where(next: nat, curr: nat, drop: nat, low: int, used: nat)

  /** The code that comes next is code c of length len, and the table being filled is the one it belongs to. */
  ghost predicate Placed(t: seq<Entry>, ls: seq<nat>, root: nat, max: nat, sub: Sub, w: Where, len: nat, c: nat) {
    if sub.NoSub? then len <= root && w == Where(0, root, 0, -1, Pow2(root))
    else
      && root < len <= root + w.curr && InSub(t, root, sub)
      && sub == Sub(BitsOf(root, Shr(c, len - root)), w.curr, w.next)
      && w.drop == root && w.low == LowValue(sub.u) && w.used == w.next + Pow2(w.curr)
      && Fits(ls, root, Shr(c, len - root), w.curr, max)
  }

  ghost function Top(root: nat, sub: Sub, len: nat, c: nat): nat
    requires sub.Sub? ==> root <= len
  {
    if sub.NoSub? then 0 else Shr(c, len - root)
  }

  /** Root bits of a code. */
  lemma RootBits(len: nat, c: nat, root: nat)
    requires root <= len && c < Pow2(len)
    ensures BitsOf(len, c)[..root] == BitsOf(root, Shr(c, len - root)) && Shr(c, len - root) < Pow2(root)
    ensures Value(BitsOf(root, Shr(c, len - root))) == Shr(c, len - root)
  {
    BitsSplit(root, len - root, c);
    HighFits(c, root, len - root);
    ValueOfBits(root, Shr(c, len - root));
    assert BitsOf(len, c)[..root] == BitsOf(root, Shr(c, len - root));
  }

  /** One code is entered. */
  method EnterCode(table: array<Entry>, kind: Kind, w: Where, root: nat, huff: nat, len: nat, sym: nat,
                   ghost ls: seq<nat>, ghost max: nat, ghost sub: Sub, ghost c: nat)
    requires 1 <= root <= max <= 15 && 1 <= len <= max && |ls| <= Symbols(kind) && c < Pow2(len)
    requires Placed(table[..], ls, root, max, sub, w, len, c) && Good(table[..], ls, kind, root, sub, len, c)
    requires AllOwned(table[..], root, Top(root, sub, len, c), w.used) && huff == LowValue(BitsOf(len, c))
    requires sym < |ls| && ls[sym] == len && CodeOf(ls, sym) == c < FirstCode(ls, len) + Count(ls, len)
    requires w.used <= table.Length
    modifies table
    ensures Good(table[..], ls, kind, root, sub, len, c + 1) && Placed(table[..], ls, root, max, sub, w, len, c)
    ensures AllOwned(table[..], root, Top(root, sub, len, c), w.used)
  {
    hide *;
    ghost var t, v := table[..], BitsOf(len, c);
    PlacedParts(t, ls, root, max, sub, w, len, c);
    SymbolIn(kind, sym, |ls|);
    var e := Leaf(kind, sym, len - w.drop);
    LowValueSplit(v, w.drop);
    Replicate(table, w.next, w.curr, Shr(huff, w.drop), len - w.drop, e, v[w.drop..]);
    WrittenSize(t, table[..], w.next, w.curr, v[w.drop..], e);
    if sub.NoSub? {
      assert v[0..] == v;
      RootStep(t, table[..], ls, kind, root, len, c, sym);
      NothingOwned(table[..], root, Top(root, sub, len, c));
    } else {
      RootBits(len, c, root);
      SubStep(t, table[..], ls, kind, root, sub, len, c, sym);
      forall u: seq<bool> | LowValue(u) < Pow2(root)
        ensures LowValue(u) < |t| && table[..][LowValue(u)] == t[LowValue(u)]
      {
        WrittenOutside(t, table[..], w.next, w.curr, v[w.drop..], e, LowValue(u));
      }
      OwnedKept(t, table[..], root, Top(root, sub, len, c), Top(root, sub, len, c), w.used);
    }
    PlacedFrom(table[..], ls, root, max, sub, w, len, c);
  }

  lemma SymbolIn(kind: Kind, sym: nat, n: nat)
    requires sym < n <= Symbols(kind)
    ensures sym < Symbols(kind)
  {
  }

  lemma NothingOwned(t: seq<Entry>, root: nat, top: nat)
    ensures AllOwned(t, root, top, Pow2(root))
  {
  }

  lemma PlacedParts(t: seq<Entry>, ls: seq<nat>, root: nat, max: nat, sub: Sub, w: Where, len: nat, c: nat)
    requires Placed(t, ls, root, max, sub, w, len, c)
    ensures sub.NoSub? ==> len <= root && w == Where(0, root, 0, -1, Pow2(root))
    ensures sub.Sub? ==> root < len <= root + w.curr <= 15 && InSub(t, root, sub)
    ensures sub.Sub? ==> sub == Sub(BitsOf(root, Shr(c, len - root)), w.curr, w.next)
    ensures sub.Sub? ==> w.drop == root && w.low == LowValue(sub.u) && w.used == w.next + Pow2(w.curr)
    ensures sub.Sub? ==> Fits(ls, root, Shr(c, len - root), w.curr, max) && Pow2(root) <= w.next
  {
    hide LowValue, Pow2, Fits, BitsOf, Shr;
  }

  // Going on to the next code.

  lemma ShrShl(v: nat, n: nat)
    ensures Shr(Shl(v, n), n) == v
  {
    TwoFields(v, 0, n);
  }

  /** The first code that is longer than the root index begins with its root bits and goes on with zeros. */
  lemma AlignedFirst(len0: nat, a: nat, len: nat, c: nat, root: nat)
    requires len0 <= root < len && c == Shl(a, len - len0)
    ensures c == Shl(Shr(c, len - root), len - root)
  {
    var m := Shl(a, root - len0);
    ShlShl(a, root - len0, len - root);
    ShrShl(m, len - root);
  }

  /** So does the first code after its root bits have changed, and they have changed by one. */
  lemma AlignedNext(len0: nat, c0: nat, len: nat, c: nat, root: nat)
    requires root < len0 <= len && c == Shl(c0 + 1, len - len0) && Shr(c, len - root) != Shr(c0, len0 - root)
    ensures c == Shl(Shr(c, len - root), len - root) && Shr(c, len - root) == Shr(c0, len0 - root) + 1
  {
    hide *;
    var n, d, q := len0 - root, len - len0, Shr(c0, len0 - root);
    TakenApart(c0, n);
    var l := Low(c0, n);
    assert n + d == len - root;
    if l + 1 < Pow2(n) {
      SamePrefix(q, l + 1, n, d);
    } else {
      LowBelow(c0, n);
      ShlNext(q, n);
      ShlShl(q + 1, n, d);
      ShrShl(q + 1, n + d);
    }
  }

  lemma SamePrefix(q: nat, l: nat, n: nat, d: nat)
    requires l < Pow2(n)
    ensures Shr(Shl(Shl(q, n) + l, d), n + d) == q
  {
    hide *;
    ShlAdd(Shl(q, n), l, d);
    ShlShl(q, n, d);
    ShlFits(l, n, d);
    TwoFields(q, Shl(l, d), n + d);
  }

  lemma LowBelow(v: nat, n: nat)
    ensures Low(v, n) < Pow2(n)
  {
  }

  lemma BelowNextPrefix(c: nat, n: nat)
    ensures c < Shl(Shr(c, n) + 1, n)
  {
    TakenApart(c, n);
    LowBelow(c, n);
    ShlNext(Shr(c, n), n);
  }

  lemma FitsAt(ls: seq<nat>, root: nat, q: nat, curr: nat, max: nat, n: nat)
    requires Fits(ls, root, q, curr, max) && root + curr < n <= max
    ensures FirstCode(ls, n) >= Shl(q + 1, n - root)
  {
  }

  /** While the root bits stay the same the code fits the sub-table. */
  lemma StillFits(ls: seq<nat>, root: nat, q: nat, curr: nat, max: nat, len: nat, c: nat)
    requires Fits(ls, root, q, curr, max) && root < len <= max && FirstCode(ls, len) <= c && Shr(c, len - root) == q
    ensures len <= root + curr
  {
    if root + curr < len {
      FitsAt(ls, root, q, curr, max, len);
      BelowNextPrefix(c, len - root);
    }
  }

  lemma PlacedFrom(t: seq<Entry>, ls: seq<nat>, root: nat, max: nat, sub: Sub, w: Where, len: nat, c: nat)
    requires sub.NoSub? ==> len <= root && w == Where(0, root, 0, -1, Pow2(root))
    requires sub.Sub? ==> root < len <= root + w.curr && InSub(t, root, sub)
    requires sub.Sub? ==> sub == Sub(BitsOf(root, Shr(c, len - root)), w.curr, w.next)
    requires sub.Sub? ==> w.drop == root && w.low == LowValue(sub.u) && w.used == w.next + Pow2(w.curr)
    requires sub.Sub? ==> Fits(ls, root, Shr(c, len - root), w.curr, max)
    ensures Placed(t, ls, root, max, sub, w, len, c)
  {
  }

  lemma TopIs(root: nat, sub: Sub, len: nat, c: nat)
    requires sub.Sub? ==> root <= len
    ensures Top(root, sub, len, c) == if sub.NoSub? then 0 else Shr(c, len - root)
  {
  }

  /** The root bits are the same if and only if the low bits of huff are. */
  lemma SameRoot(root: nat, q: nat, q0: nat)
    requires q < Pow2(root) && q0 < Pow2(root)
    ensures LowValue(BitsOf(root, q)) == LowValue(BitsOf(root, q0)) <==> q == q0
  {
    ValueOfBits(root, q);
    ValueOfBits(root, q0);
    if LowValue(BitsOf(root, q)) == LowValue(BitsOf(root, q0)) {
      LowValueApart(BitsOf(root, q), BitsOf(root, q0));
    }
  }

  /** Too many entries for the space that is set aside. */
  predicate NotEnough(kind: Kind, used: nat) {
    (kind == LENS && used >= 852) || (kind == DISTS && used >= 592)
  }

  /** A new sub-table is begun if the next code needs one. */
  method NextTable(table: array<Entry>, kind: Kind, w0: Where, root: nat, max: nat, huff: nat, len: nat, count: array<nat>,
                   ghost ls: seq<nat>, ghost sub0: Sub, ghost len0: nat, ghost c0: nat, ghost c: nat)
    returns (ok: bool, w: Where, ghost sub: Sub)
    requires 1 <= root <= max <= 15 && 1 <= len0 <= len <= max && c0 < Pow2(len0) && c < Pow2(len) && c == Shl(c0 + 1, len - len0)
    requires Placed(table[..], ls, root, max, sub0, w0, len0, c0) && Good(table[..], ls, kind, root, sub0, len, c)
    requires AllOwned(table[..], root, Top(root, sub0, len0, c0), w0.used) && huff == LowValue(BitsOf(len, c))
    requires Counts(ls, count[..], len, c) && w0.used <= table.Length && 852 <= table.Length
    requires (kind.CODES? ==> root == max) && !NotEnough(kind, w0.used)
    modifies table
    ensures ok <==> !NotEnough(kind, w.used)
    ensures ok ==> Placed(table[..], ls, root, max, sub, w, len, c) && Good(table[..], ls, kind, root, sub, len, c)
    ensures ok ==> AllOwned(table[..], root, Top(root, sub, len, c), w.used) && w.used <= table.Length
    ensures w0.used <= w.used <= w0.used + if len > root then Pow2(max - root) else 0
    ensures !ok ==> !kind.CODES? && root < len
  {
    hide *;
    ghost var t := table[..];
    PlacedParts(t, ls, root, max, sub0, w0, len0, c0);
    TopIs(root, sub0, len0, c0);
    CountsAt(ls, count[..], len, c, len);
    ok, w, sub := true, w0, sub0;
    if len <= root {
      PlacedFrom(t, ls, root, max, sub, w, len, c);
      TopIs(root, sub, len, c);
      return;
    }
    ghost var q, u := Shr(c, len - root), BitsOf(root, Shr(c, len - root));
    RootBits(len, c, root);
    LowValueSplit(BitsOf(len, c), root);
    LowBound(u);
    if sub0.Sub? {
      RootBits(len0, c0, root);
      SameRoot(root, q, Shr(c0, len0 - root));
    }
    var low := Low(huff, root);
    if low == w0.low {
      StillFits(ls, root, q, w0.curr, max, len, c);
      PlacedFrom(t, ls, root, max, sub, w, len, c);
      TopIs(root, sub, len, c);
      return;
    }
    if sub0.NoSub? { AlignedFirst(len0, c0 + 1, len, c, root); } else { AlignedNext(len0, c0, len, c, root); }
    var next := w0.next + Pow2(w0.curr);
    var curr := SubTableSize(count, len, root, max, ls, c, q);
    var used := w0.used + Pow2(curr);
    Pow2Monotone(curr, max - root);
    EnoughMeans(kind, used);
    if NotEnough(kind, used) { return false, w0.(used := used), sub0; }
    sub := Sub(u, curr, next);
    w := Where(next, curr, root, low, used);
    SubTableStep(t, ls, kind, root, sub0, len, c, u, curr, next);
    table[low] := Entry(curr, root, next);
    assert table[..] == t[LowValue(u) := Entry(curr, root, next)];
    if sub0.NoSub? {
      NothingOwned(table[..], root, q);
    } else {
      forall u': seq<bool> | |u'| == root && Value(u') <= Shr(c0, len0 - root)
        ensures LowValue(u') != LowValue(u)
      {
        if LowValue(u') == LowValue(u) { LowValueApart(u', u); }
      }
      OwnedKept(t, table[..], root, Shr(c0, len0 - root), q, w0.used);
    }
    OwnedByNew(table[..], root, u, curr, next, q, used);
    PlacedFrom(table[..], ls, root, max, sub, w, len, c);
    TopIs(root, sub, len, c);
  }

  lemma EnoughMeans(kind: Kind, used: nat)
    ensures if NotEnough(kind, used) then !kind.CODES? else kind.CODES? || used < 852
    ensures !NotEnough(kind, 2)
  {
  }

  lemma EnoughSizes(kind: Kind, used: nat)
    ensures NotEnough(kind, used) ==> used >= 592
  {
  }

  lemma CountsDown(ls: seq<nat>, count: seq<nat>, len: nat, c: nat)
    requires Counts(ls, count, len, c) && count[len] > 0
    ensures Counts(ls, count[len := count[len] - 1], len, c + 1)
  {
  }

  lemma CountsNext(ls: seq<nat>, count: seq<nat>, len: nat, c: nat, n: nat)
    requires Counts(ls, count, len, c) && len < n <= 15
    ensures Counts(ls, count, n, FirstCode(ls, n))
  {
  }

  /** A longer code of the same bits is followed by zeros. */
  lemma LongerCode(len: nat, c: nat, d: nat)
    ensures LowValue(BitsOf(len + d, Shl(c, d))) == LowValue(BitsOf(len, c))
  {
    BitsSplit(len, d, Shl(c, d));
    ShrShl(c, d);
    LowZeros(d, c);
    LowValueConcat(BitsOf(len, c), Zeros(d));
    ZerosAreZero(d);
    ShlNothing(len);
  }

  lemma {:induction false} LowZeros(d: nat, c: nat)
    ensures BitsOf(d, Shl(c, d)) == Zeros(d)
    decreases d
  {
    if d > 0 {
      ShlNext(c, d - 1);
      LowZeros(d - 1, c);
      assert Zeros(d) == Zeros(d - 1) + [false];
    }
  }

  /** A code of all lengths together that leaves nothing over. */
  ghost predicate Complete(ls: seq<nat>) {
    FirstCode(ls, 15) + Count(ls, 15) == Pow2(15)
  }

  lemma {:induction false} EndOfCodes(ls: seq<nat>, max: nat, n: nat)
    requires max < n && CountBelow(ls, max + 1) == CountBelow(ls, n) && FirstCode(ls, n) == Pow2(n)
    ensures FirstCode(ls, max) + Count(ls, max) == Pow2(max)
    decreases n
  {
    if max + 1 < n {
      CountBelowMonotone(ls, max + 1, n - 1);
      CountBelowNext(ls, n - 1);
      hide Count, CountBelow;
      EndOfCodes(ls, max, n - 1);
    }
  }

  /** What the loop has built: everything is looked up rightly, every slot belongs to a table. */
  ghost predicate Built(t: seq<Entry>, ls: seq<nat>, kind: Kind, root: nat, max: nat, sub: Sub, top: nat, used: nat) {
    && Good(t, ls, kind, root, sub, max, FirstCode(ls, max) + Count(ls, max)) && AllOwned(t, root, top, used)
    && Pow2(root) <= used <= |t| && (sub.Sub? ==> sub.next + Pow2(sub.curr) == used) && (sub.NoSub? ==> used == Pow2(root))
  }

  /** Every code that is longer than the root index begins one sub-table at most. */
  function MostUsed(root: nat, max: nat, longer: int): int {
    Pow2(root) + (if longer > 0 && max >= root then longer * Pow2(max - root) else 0)
  }

  /** How many of the first k codes, by length, are longer than the root index. */
  function Longer(ls: seq<nat>, root: nat, k: nat): int {
    k - CountBelow(ls, root + 1)
  }

  lemma MostUsedNext(root: nat, max: nat, longer: int)
    requires root <= max
    ensures longer >= 0 ==> MostUsed(root, max, longer + 1) == MostUsed(root, max, longer) + Pow2(max - root)
    ensures MostUsed(root, max, longer) <= MostUsed(root, max, longer + 1)
    ensures MostUsed(root, max, longer) >= Pow2(root)
  {
    var p := Pow2(max - root);
    if longer >= 0 { assert (longer + 1) * p == longer * p + p; }
    if longer > 0 { ProductGrows(longer, 1, p); }
  }

  lemma {:induction false} MostUsedGrows(root: nat, max: nat, a: int, b: int)
    requires root <= max && a <= b
    ensures MostUsed(root, max, a) <= MostUsed(root, max, b)
    decreases b - a
  {
    if a < b {
      MostUsedGrows(root, max, a, b - 1);
      MostUsedNext(root, max, b - 1);
    }
  }

  lemma UsedUpTo(ls: seq<nat>, root: nat, max: nat, k: nat, k': nat)
    requires root <= max && k <= k'
    ensures MostUsed(root, max, Longer(ls, root, k)) <= MostUsed(root, max, Longer(ls, root, k'))
  {
    MostUsedGrows(root, max, Longer(ls, root, k), Longer(ls, root, k'));
  }

  lemma LongerIs(ls: seq<nat>, root: nat, k: nat)
    ensures Longer(ls, root, k + 1) == Longer(ls, root, k) + 1
  {
  }

  /** A code longer than the root index comes behind all that are not. */
  lemma LongerHere(ls: seq<nat>, root: nat, len: nat, sym: nat)
    requires CountBelow(ls, len) <= sym
    ensures len > root ==> Longer(ls, root, sym) >= 0
  {
    if len > root { CountBelowMonotone(ls, root + 1, len); }
  }

  /** The loop that enters all codes. */
  method EnterAll(table: array<Entry>, kind: Kind, lens: array<nat>, work: array<nat>, count: array<nat>, root: nat, min: nat, max: nat,
                  ghost ls: seq<nat>)
    returns (ok: bool, w: Where, huff: nat, ghost sub: Sub, ghost top: nat)
    requires 1 <= min <= root <= max <= 15 && |ls| <= Symbols(kind) && |ls| <= lens.Length && 852 <= table.Length
    requires lens != work && work != count && lens != count && (kind.CODES? ==> root == max <= 7)
    requires forall i :: 0 <= i < |ls| && ls[i] <= 15 ==> lens[i] == ls[i]
    requires Sorted(ls, work[..]) && NotOver(ls) && Count(ls, max) > 0 && Count(ls, min) > 0 && CountBelow(ls, min) == 0
    requires count.Length == 16 && forall n :: 1 <= n <= 15 ==> count[n] == Count(ls, n)
    requires !NotEnough(kind, Pow2(root))
    modifies table, count
    ensures ok <==> !NotEnough(kind, w.used)
    ensures ok ==> Built(table[..], ls, kind, root, max, sub, top, w.used)
    ensures ok ==> if sub.NoSub? then w == Where(0, root, 0, -1, Pow2(root)) else root < max
    ensures !ok ==> !kind.CODES? && root < max
    ensures w.used <= MostUsed(root, max, Longer(ls, root, CountBelow(ls, max + 1)))
    ensures ok ==> huff == LowValue(BitsOf(max, FirstCode(ls, max) + Count(ls, max)))
  {
    hide *;
    var len: nat, sym: nat := min, 0;
    huff := 0;
    ghost var c: nat := 0;
    w := Where(0, root, 0, -1, Pow2(root));
    sub, top := NoSub, 0;
    StartOfCodes(ls, count[..], table[..], kind, root, min);
    EnoughMeans(kind, Pow2(root));
    SmallPowers(root);
    NothingOwned(table[..], root, 0);
    TopIs(root, sub, len, c);
    PlacedFrom(table[..], ls, root, max, sub, w, len, c);
    MostUsedNext(root, max, Longer(ls, root, 1));
    while true
      invariant w.used <= MostUsed(root, max, Longer(ls, root, sym + 1))
      invariant 1 <= len <= max && Counts(ls, count[..], len, c) && count.Length == 16
      invariant FirstCode(ls, len) <= c < FirstCode(ls, len) + Count(ls, len)
      invariant sym == CountBelow(ls, len) + (c - FirstCode(ls, len)) && huff == LowValue(BitsOf(len, c))
      invariant Placed(table[..], ls, root, max, sub, w, len, c) && Good(table[..], ls, kind, root, sub, len, c)
      invariant (sub.Sub? ==> root <= len) && AllOwned(table[..], root, Top(root, sub, len, c), w.used) && w.used <= table.Length
      invariant Pow2(root) <= w.used && !NotEnough(kind, w.used)
      decreases CountBelow(ls, max + 1) - sym
    {
      NotOverAt(ls, len);
      SymbolAt(ls, work[..], len, c, sym);
      CountBelowMonotone(ls, len + 1, max + 1);
      CountsAt(ls, count[..], len, c, len);
      CountBelowNext(ls, len);
      UsedUpTo(ls, root, max, sym + 1, CountBelow(ls, max + 1));
      EnterCode(table, kind, w, root, huff, len, work[sym], ls, max, sub, c);
      PlacedParts(table[..], ls, root, max, sub, w, len, c);
      ghost var len0, c0 := len, c;
      top := Top(root, sub, len, c);
      huff := NextCode(huff, len, c);
      sym := sym + 1;
      CountsDown(ls, count[..], len, c);
      ghost var counts: seq<nat> := count[..];
      count[len] := count[len] - 1;
      assert count[..] == counts[len := counts[len] - 1];
      c := c + 1;
      CountsAt(ls, count[..], len, c, len);
      if count[len] == 0 {
        if len == max { break; }
        CountBelowNext(ls, len);
        NextSymbol(ls, work[..], len, max, sym);
        len := lens[work[sym]];
        LengthStep(table[..], ls, kind, root, sub, len0, len - len0, c);
        LongerCode(len0, c, len - len0);
        CountsNext(ls, count[..], len0, c, len);
        c := FirstCode(ls, len);
      } else {
        ShlNext(c, 0);
      }
      NotOverAt(ls, len);
      LongerHere(ls, root, len, sym);
      LongerIs(ls, root, sym);
      MostUsedNext(root, max, Longer(ls, root, sym));
      SymbolAt(ls, work[..], len, c, sym);
      CountBelowMonotone(ls, len + 1, max + 1);
      CountBelowNext(ls, len);
      UsedUpTo(ls, root, max, sym + 1, CountBelow(ls, max + 1));
      var ok';
      ok', w, sub := NextTable(table, kind, w, root, max, huff, len, count, ls, sub, len0, c0, c);
      if !ok' { return false, w, huff, sub, 0; }
      PlacedParts(table[..], ls, root, max, sub, w, len, c);
    }
    ok := true;
    BuiltFrom(table[..], ls, kind, root, max, sub, top, w, c);
  }

  lemma BuiltFrom(t: seq<Entry>, ls: seq<nat>, kind: Kind, root: nat, max: nat, sub: Sub, top: nat, w: Where, c: nat)
    requires Good(t, ls, kind, root, sub, max, c) && c == FirstCode(ls, max) + Count(ls, max) && AllOwned(t, root, top, w.used)
    requires c > 0 && Placed(t, ls, root, max, sub, w, max, c - 1) && Pow2(root) <= w.used <= |t|
    ensures Built(t, ls, kind, root, max, sub, top, w.used)
  {
  }

  lemma StartOfCodes(ls: seq<nat>, count: seq<nat>, t: seq<Entry>, kind: Kind, root: nat, min: nat)
    requires 1 <= min <= 15 && CountBelow(ls, min) == 0
    requires |count| == 16 && forall n :: 1 <= n <= 15 ==> count[n] == Count(ls, n)
    ensures FirstCode(ls, min) == 0 && Counts(ls, count, min, 0) && LowValue(BitsOf(min, 0)) == 0
    ensures Good(t, ls, kind, root, NoSub, min, 0)
  {
    NothingBefore(ls, min);
    NoCode(min);
    hide LowValue;
  }

  lemma {:induction false} NoCode(n: nat)
    ensures BitsOf(n, 0) == Zeros(n) && LowValue(BitsOf(n, 0)) == 0
  {
    ShlNothing(n);
    LowZeros(n, 0);
    ZerosAreZero(n);
  }

  lemma SmallPowers(root: nat)
    ensures root <= 7 ==> Pow2(root) <= 128
  {
    if root <= 7 {
      Pow2Monotone(root, 7);
      assert Pow2(7) == 128;
    }
  }

  // Counting and sorting the lengths.

  lemma {:induction false} UsedCount(lens: seq<nat>, n: nat)
    requires 1 <= n <= 15
    ensures Count(UsedLengths(lens), n) == Count(lens, n)
    decreases |lens|
  {
    if lens != [] {
      var k := |lens| - 1;
      UsedCount(lens[..k], n);
      assert UsedLengths(lens)[..k] == UsedLengths(lens[..k]);
    }
  }

  /** The number of codes of each length. */
  method CountLengths(lens: array<nat>, codes: nat, count: array<nat>, ghost ls: seq<nat>)
    requires lens != count && count.Length == 16 && codes <= lens.Length && ls == UsedLengths(lens[..codes])
    requires forall i :: 0 <= i < codes ==> lens[i] <= 15
    modifies count
    ensures forall n :: 1 <= n <= 15 ==> count[n] == Count(ls, n)
  {
    hide Count, UsedLengths;
    ghost var keys := lens[..codes];
    var len := 0;
    while len <= 15
      modifies count
      invariant 0 <= len <= 16 && forall n :: 0 <= n < len ==> count[n] == 0
    {
      count[len] := 0;
      len := len + 1;
    }
    NoneCounted(keys);
    var sym := 0;
    while sym < codes
      modifies count
      invariant 0 <= sym <= codes && forall n :: 0 <= n < 16 ==> count[n] == Count(keys[..sym], n)
    {
      forall n: nat | n < 16
        ensures Count(keys[..sym + 1], n) == Count(keys[..sym], n) + if keys[sym] == n then 1 else 0
      {
        CountPrefix(keys, sym, n);
      }
      count[lens[sym]] := count[lens[sym]] + 1;
      sym := sym + 1;
    }
    assert keys[..codes] == keys;
    forall n | 1 <= n <= 15
      ensures count[n] == Count(ls, n)
    {
      UsedCount(keys, n);
    }
  }

  lemma NoneCounted(keys: seq<nat>)
    ensures forall n :: Count(keys[..0], n) == 0
  {
  }

  /** The sort, when the symbols below sym have been placed. */
  ghost predicate Sorting(ls: seq<nat>, work: seq<nat>, offs: seq<nat>, sym: nat) {
    && |offs| == 16 && sym <= |ls| && (forall i :: 0 <= i < |ls| ==> ls[i] >= 1)
    && (forall n :: 1 <= n <= 15 ==> offs[n] == CountBelow(ls, n) + Count(ls[..sym], n))
    && forall i :: 0 <= i < sym && ls[i] <= 15 ==> SortedPlace(ls, i) < |work| && work[SortedPlace(ls, i)] == i
  }

  lemma SortingStep(ls: seq<nat>, work: seq<nat>, offs: seq<nat>, sym: nat)
    requires Sorting(ls, work, offs, sym) && sym < |ls| <= |work|
    ensures ls[sym] > 15 ==> Sorting(ls, work, offs, sym + 1)
    ensures ls[sym] <= 15 ==>
              (offs[ls[sym]] < |work| &&
               Sorting(ls, work[offs[ls[sym]] := sym], offs[ls[sym] := offs[ls[sym]] + 1], sym + 1))
  {
    forall n: nat | 1 <= n <= 15
      ensures Count(ls[..sym + 1], n) == Count(ls[..sym], n) + if ls[sym] == n then 1 else 0
    {
      CountPrefix(ls, sym, n);
    }
    hide Count, CountBelow;
    if ls[sym] <= 15 {
      PlaceInRange(ls, sym);
      assert offs[ls[sym]] == SortedPlace(ls, sym);
      forall i | 0 <= i < sym && ls[i] <= 15
        ensures SortedPlace(ls, i) != SortedPlace(ls, sym)
      {
        if SortedPlace(ls, i) == SortedPlace(ls, sym) { OnePlace(ls, i, sym); }
      }
    }
  }

  lemma OnePlace(keys: seq<nat>, i: nat, m: nat)
    requires i < |keys| && m < |keys| && SortedPlace(keys, i) == SortedPlace(keys, m)
    ensures i == m
  {
    PlaceInRange(keys, i);
    PlaceInRange(keys, m);
    if keys[i] < keys[m] {
      CountBelowMonotone(keys, keys[i] + 1, keys[m]);
    } else if keys[m] < keys[i] {
      CountBelowMonotone(keys, keys[m] + 1, keys[i]);
    } else {
      SameRank(keys, i, m);
    }
  }

  lemma SortingStart(ls: seq<nat>, work: seq<nat>, offs: seq<nat>)
    requires |offs| == 16 && (forall i :: 0 <= i < |ls| ==> ls[i] >= 1)
    requires forall n :: 1 <= n <= 15 ==> offs[n] == CountBelow(ls, n)
    ensures Sorting(ls, work, offs, 0)
  {
    NoneCounted(ls);
    hide Count, CountBelow;
  }

  lemma SortingEnd(ls: seq<nat>, work: seq<nat>, offs: seq<nat>)
    requires Sorting(ls, work, offs, |ls|)
    ensures Sorted(ls, work)
  {
  }

  /** Sort symbols by length, by symbol order within each length. */
  method SortSymbols(lens: array<nat>, codes: nat, count: array<nat>, work: array<nat>, ghost ls: seq<nat>)
    requires lens != work && count != work && count.Length == 16 && codes <= lens.Length && codes <= work.Length
    requires ls == UsedLengths(lens[..codes]) && forall i :: 0 <= i < codes ==> lens[i] <= 15
    requires forall n :: 1 <= n <= 15 ==> count[n] == Count(ls, n)
    modifies work
    ensures Sorted(ls, work[..])
  {
    hide *;
    var offs := new nat[16];
    UsedIs(lens[..codes]);
    offs[1] := 0;
    NoneBelow(ls, 1);
    var len := 1;
    while len < 15
      invariant 1 <= len <= 15 && forall n :: 1 <= n <= len ==> offs[n] == CountBelow(ls, n)
    {
      CountBelowNext(ls, len);
      offs[len + 1] := offs[len] + count[len];
      len := len + 1;
    }
    SortingStart(ls, work[..], offs[..]);
    var sym: nat := 0;
    while sym < codes
      invariant 0 <= sym <= codes && Sorting(ls, work[..], offs[..], sym)
    {
      SortingStep(ls, work[..], offs[..], sym);
      if lens[sym] != 0 {
        ghost var w: seq<nat>, o: seq<nat> := work[..], offs[..];
        work[offs[lens[sym]]] := sym;
        offs[lens[sym]] := offs[lens[sym]] + 1;
        assert work[..] == w[o[ls[sym]] := sym] && offs[..] == o[ls[sym] := o[ls[sym]] + 1];
      }
      sym := sym + 1;
    }
    SortingEnd(ls, work[..], offs[..]);
  }

  lemma UsedIs(lens: seq<nat>)
    requires forall i :: 0 <= i < |lens| ==> lens[i] <= 15
    ensures |UsedLengths(lens)| == |lens|
    ensures forall i :: 0 <= i < |lens| ==> UsedLengths(lens)[i] == if lens[i] == 0 then 16 else lens[i]
  {
  }

  // The result.

  /** Looking x up goes through at most one link, which takes exactly the root bits, and stays in the table. */
  ghost predicate Through(t: seq<Entry>, root: nat, x: seq<bool>) {
    && root <= |x| && LowValue(x[..root]) < |t|
    && var e := t[LowValue(x[..root])];
       IsLink(e) ==>
         && e.bits == root && root + e.op <= |x| && e.val + LowValue(x[root..root + e.op]) < |t|
         && !IsLink(t[e.val + LowValue(x[root..root + e.op])])
  }

  /** Looking x up in the table gives symbol i and takes n bits. */
  ghost predicate LooksUp(t: seq<Entry>, kind: Kind, root: nat, x: seq<bool>, i: nat, n: nat) {
    && root <= |x| && i < Symbols(kind) && Through(t, root, x)
    && var (e, bits) := LookUpIn(t, root, x);
       e.(bits := 0) == Leaf(kind, i, 0) && bits == n
  }

  /** Slot idx is looked at for some bit string. */
  ghost predicate Visited(t: seq<Entry>, root: nat, x: seq<bool>, idx: nat) {
    && root <= |x| == 15 && LowValue(x[..root]) < |t|
    && var e := t[LowValue(x[..root])];
       idx == LowValue(x[..root]) || (IsLink(e) && root + e.op <= 15 && idx == e.val + LowValue(x[root..root + e.op]))
  }

  ghost predicate IsVisited(t: seq<Entry>, root: nat, idx: nat) {
    exists x :: Visited(t, root, x, idx)
  }

  /**
   A decoder for the code: whatever symbol a bit string begins with is found, with its length, without leaving the used part
   of the table; and the used part has no slot that is never looked at.
   */
  ghost predicate Decoder(t: seq<Entry>, ls: seq<nat>, kind: Kind, root: nat, used: nat) {
    && 1 <= root <= 15 && used <= |t|
    && (forall x: seq<bool>, i: nat :: Begins(ls, x, i) ==> i < |ls| && LooksUp(t[..used], kind, root, x, i, ls[i]))
    && forall idx :: 0 <= idx < used ==> IsVisited(t, root, idx)
  }

  lemma LeadsLooksUp(t: seq<Entry>, ls: seq<nat>, kind: Kind, root: nat, sub: Sub, x: seq<bool>, i: nat, used: nat)
    requires Leads(t, ls, kind, root, sub, x, i) && Limit(root, sub, x[..root]) <= used <= |t| && Pow2(root) <= used
    ensures LooksUp(t[..used], kind, root, x, i, ls[i])
  {
    hide *;
    LeadsParts(t, ls, kind, root, sub, x, i);
    var r := LowValue(x[..root]);
    if ls[i] > root {
      var y := x[root..root + t[r].op];
      LowBound(y);
      IsLeafIs(t, t[r].val + LowValue(y), kind, i, ls[i] - root);
      LeafBits(kind, i, ls[i] - root);
      LookUpSub(t[..used], root, x);
    } else {
      IsLeafIs(t, r, kind, i, ls[i]);
      LeafBits(kind, i, ls[i]);
      LookUpRoot(t[..used], root, x);
    }
    LooksUpFrom(t[..used], kind, root, x, i, ls[i]);
  }

  lemma LookUpRoot(t: seq<Entry>, root: nat, x: seq<bool>)
    requires root <= |x| && LowValue(x[..root]) < |t| && !IsLink(t[LowValue(x[..root])])
    ensures Through(t, root, x)
    ensures LookUpIn(t, root, x) == (t[LowValue(x[..root])], t[LowValue(x[..root])].bits)
  {
    hide LowValue;
  }

  lemma LookUpSub(t: seq<Entry>, root: nat, x: seq<bool>)
    requires root <= |x| && LowValue(x[..root]) < |t|
    requires var e := t[LowValue(x[..root])];
             && IsLink(e) && e.bits == root && root + e.op <= |x| && e.val + LowValue(x[root..root + e.op]) < |t|
             && !IsLink(t[e.val + LowValue(x[root..root + e.op])])
    ensures Through(t, root, x)
    ensures var e := t[LowValue(x[..root])];
            var f := t[e.val + LowValue(x[root..root + e.op])];
            LookUpIn(t, root, x) == (f, root + f.bits)
  {
    hide LowValue;
  }

  lemma LooksUpFrom(t: seq<Entry>, kind: Kind, root: nat, x: seq<bool>, i: nat, n: nat)
    requires root <= |x| && i < Symbols(kind) && Through(t, root, x)
    requires LookUpIn(t, root, x).0.(bits := 0) == Leaf(kind, i, 0) && LookUpIn(t, root, x).1 == n
    ensures LooksUp(t, kind, root, x, i, n)
  {
  }

  lemma LeafBits(kind: Kind, i: nat, b: nat)
    requires i < Symbols(kind)
    ensures Leaf(kind, i, b).(bits := 0) == Leaf(kind, i, 0) && Leaf(kind, i, b).bits == b && !IsLink(Leaf(kind, i, b))
  {
  }

  lemma SlotVisited(t: seq<Entry>, root: nat, top: nat, used: nat, idx: nat)
    requires AllOwned(t, root, top, used) && idx < used <= |t| && root <= 15 && Pow2(root) <= |t|
    ensures IsVisited(t, root, idx)
  {
    if idx < Pow2(root) {
      var u := LowestBits(root, idx);
      ValueOfLowest(root, idx);
      var x := u + Zeros(15 - root);
      hide LowValue, Pow2;
      assert x[..root] == u;
      assert Visited(t, root, x, idx);
    } else {
      assert Owned(t, root, top, idx);
      hide LowValue, Pow2;
      var u :| Holds(t, root, u, idx) && Value(u) <= top;
      var e := t[LowValue(u)];
      var y := LowestBits(e.op, idx - e.val);
      ValueOfLowest(e.op, idx - e.val);
      var x := u + y + Zeros(15 - root - e.op);
      assert x[..root] == u && x[root..root + e.op] == y;
      assert Visited(t, root, x, idx);
    }
  }

  lemma BuiltDecodes(t: seq<Entry>, ls: seq<nat>, kind: Kind, root: nat, max: nat, sub: Sub, top: nat, used: nat)
    requires Built(t, ls, kind, root, max, sub, top, used) && 1 <= root <= max <= 15
    requires forall x: seq<bool>, i: nat :: Begins(ls, x, i) ==> Value(x[..max]) < FirstCode(ls, max) + Count(ls, max)
    ensures Decoder(t, ls, kind, root, used)
  {
    hide LowValue, Pow2, Leads, FirstCode, Count, Value, Begins, LooksUp, IsVisited, AllOwned;
    forall x: seq<bool>, i: nat | Begins(ls, x, i)
      ensures i < |ls| && LooksUp(t[..used], kind, root, x, i, ls[i])
    {
      BeginsSize(ls, x, i);
      assert Leads(t, ls, kind, root, sub, x, i);
      LeadsSize(t, ls, kind, root, sub, x, i);
      LimitIs(root, sub, x[..root]);
      LeadsLooksUp(t, ls, kind, root, sub, x, i, used);
    }
    forall idx | 0 <= idx < used
      ensures IsVisited(t, root, idx)
    {
      SlotVisited(t, root, top, used, idx);
    }
  }

  lemma LeadsSize(t: seq<Entry>, ls: seq<nat>, kind: Kind, root: nat, sub: Sub, x: seq<bool>, i: nat)
    requires Leads(t, ls, kind, root, sub, x, i)
    ensures root <= |x| == 15 && i < |ls|
  {
  }

  /** With a complete code every bit string lies before the end of the codes. */
  lemma CompleteCovers(ls: seq<nat>, max: nat)
    requires max <= 15 && FirstCode(ls, max) + Count(ls, max) == Pow2(max)
    ensures forall x: seq<bool>, i: nat :: Begins(ls, x, i) ==> Value(x[..max]) < FirstCode(ls, max) + Count(ls, max)
  {
    forall x: seq<bool>, i: nat | Begins(ls, x, i)
      ensures Value(x[..max]) < Pow2(max)
    {
      ValueBound(x[..max]);
    }
  }

  // A code of a single bit.

  ghost predicate OnlyOne(ls: seq<nat>) {
    forall n :: 2 <= n <= 15 ==> Count(ls, n) == 0
  }

  lemma SingleCovers(ls: seq<nat>)
    requires CountBelow(ls, 2) == CountBelow(ls, 16) && FirstCode(ls, 1) == 0
    ensures forall x: seq<bool>, i: nat :: Begins(ls, x, i) ==> Value(x[..1]) < FirstCode(ls, 1) + Count(ls, 1)
  {
    forall x: seq<bool>, i: nat | Begins(ls, x, i)
      ensures Value(x[..1]) < FirstCode(ls, 1) + Count(ls, 1)
    {
      PlaceInRange(ls, i);
      if ls[i] >= 2 {
        CountBelowMonotone(ls, 2, ls[i]);
        CountBelowMonotone(ls, ls[i] + 1, 16);
      }
    }
  }

  /** The slot of the unused bit does not matter to the code. */
  lemma InvalidKeeps(t: seq<Entry>, ls: seq<nat>, kind: Kind, top: nat, e: Entry)
    requires Built(t, ls, kind, 1, 1, NoSub, top, 2) && |t| >= 2 && FirstCode(ls, 1) + Count(ls, 1) == 1
    ensures Built(t[1 := e], ls, kind, 1, 1, NoSub, top, 2)
  {
    var t' := t[1 := e];
    hide LowValue, Value, Begins, Leaf, Count, FirstCode;
    forall x: seq<bool>, i: nat | Begins(ls, x, i) && Value(x[..1]) < 1
      ensures Leads(t', ls, kind, 1, NoSub, x, i)
    {
      BeginsSize(ls, x, i);
      assert Leads(t, ls, kind, 1, NoSub, x, i);
      OneBitLow(x[..1]);
    }
    assert Pow2(1) == 2;
  }

  lemma OneBitLow(b: seq<bool>)
    requires |b| == 1
    ensures Value(b) == LowValue(b) == if b[0] then 1 else 0
  {
    assert b[..0] == [] && b[1..] == [];
  }

  // The whole.

  /** Some symbol is in use. */
  ghost predicate AnyCode(ls: seq<nat>) {
    CountBelow(ls, 16) > 0
  }

  lemma CodesBelow(ls: seq<nat>, m: nat, n: nat)
    requires m <= n && forall k :: m <= k < n ==> Count(ls, k) == 0
    ensures CountBelow(ls, n) == CountBelow(ls, m)
    decreases n
  {
    if m < n {
      CountBelowNext(ls, n - 1);
      CodesBelow(ls, m, n - 1);
    }
  }

  /** The longest and the shortest length, and the root index bits forced in between. */
  method Bounds(count: array<nat>, bits: nat, ghost ls: seq<nat>) returns (max: nat, min: nat, root: nat)
    requires count.Length == 16 && (forall n :: 1 <= n <= 15 ==> count[n] == Count(ls, n)) && CountBelow(ls, 1) == 0
    ensures max <= 15 && CountBelow(ls, max + 1) == CountBelow(ls, 16)
    ensures max == 0 <==> !AnyCode(ls)
    ensures max > 0 ==> 1 <= min <= root <= max && Count(ls, max) > 0 && Count(ls, min) > 0 && CountBelow(ls, min) == 0
    ensures max > 0 && bits >= max ==> root == max
    ensures max > 0 && bits < max && CountBelow(ls, bits + 1) > 0 ==> root == bits
  {
    hide Count, CountBelow;
    root, min := bits, 1;
    max := 15;
    while max >= 1 && count[max] == 0
      invariant 0 <= max <= 15 && forall k :: max < k <= 15 ==> Count(ls, k) == 0
    {
      max := max - 1;
    }
    CodesBelow(ls, max + 1, 16);
    if root > max { root := max; }
    if max == 0 { return; }
    CountBelowNext(ls, max);
    while min < max && count[min] == 0
      invariant 1 <= min <= max && forall k :: 1 <= k < min ==> Count(ls, k) == 0
    {
      min := min + 1;
    }
    CodesBelow(ls, 1, min);
    if bits < min { CountBelowMonotone(ls, bits + 1, min); }
    if root < min { root := min; }
  }

  /** Over-subscribed: -1; what is left over otherwise. */
  method Leftover(count: array<nat>, ghost ls: seq<nat>) returns (over: bool, left: int)
    requires count.Length == 16 && (forall n :: 1 <= n <= 15 ==> count[n] == Count(ls, n)) && Count(ls, 0) == 0
    ensures over == !NotOver(ls)
    ensures !over ==> left == Pow2(15) - (FirstCode(ls, 15) + Count(ls, 15)) && left >= 0
  {
    hide *;
    left := 1;
    var len := 1;
    NothingYet(ls);
    OverNone(ls);
    while len <= 15
      invariant 1 <= len <= 16 && left == Pow2(len - 1) - (FirstCode(ls, len - 1) + Count(ls, len - 1)) && left >= 0
      invariant NotOverTo(ls, len)
    {
      FirstNext(ls, len - 1);
      PowTwice(len - 1);
      left := 2 * left;
      left := left - count[len];
      OverNext(ls, len);
      if left < 0 { return true, left; }
      len := len + 1;
    }
    OverAll(ls);
    over := false;
  }

  lemma NothingYet(ls: seq<nat>)
    ensures Pow2(0) == 1 && FirstCode(ls, 0) == 0
  {
  }

  ghost predicate NotOverTo(ls: seq<nat>, m: nat) {
    forall n :: 0 <= n < m ==> FirstCode(ls, n) + Count(ls, n) <= Pow2(n)
  }

  lemma OverNone(ls: seq<nat>)
    requires Count(ls, 0) == 0
    ensures NotOverTo(ls, 1)
  {
  }

  lemma OverNext(ls: seq<nat>, m: nat)
    requires NotOverTo(ls, m) && m <= 15
    ensures NotOverTo(ls, m + 1) <==> FirstCode(ls, m) + Count(ls, m) <= Pow2(m)
    ensures FirstCode(ls, m) + Count(ls, m) > Pow2(m) ==> !NotOver(ls)
  {
    hide FirstCode, Count, Pow2;
  }

  lemma OverAll(ls: seq<nat>)
    requires NotOverTo(ls, 16)
    ensures NotOver(ls)
  {
    hide FirstCode, Count, Pow2;
  }

  lemma PowTwice(n: nat)
    ensures Pow2(n + 1) == 2 * Pow2(n)
  {
  }

  lemma NoLengthZero(lens: seq<nat>)
    ensures Count(UsedLengths(lens), 0) == 0 && CountBelow(UsedLengths(lens), 1) == 0
  {
    NoneBelow(UsedLengths(lens), 1);
    NoneBelow(UsedLengths(lens), 0);
    CountBelowNext(UsedLengths(lens), 0);
  }

  /** Whether what is left over is allowed: only in a code of a single bit. */
  lemma LeftMeans(ls: seq<nat>, max: nat, left: int)
    requires 1 <= max <= 15 && CountBelow(ls, max + 1) == CountBelow(ls, 16) && Count(ls, max) > 0
    requires left == Pow2(15) - (FirstCode(ls, 15) + Count(ls, 15)) >= 0
    ensures Complete(ls) <==> left == 0
    ensures OnlyOne(ls) <==> max == 1
  {
    hide FirstCode, Pow2, Count, CountBelow;
    if max == 1 {
      forall n: nat | 2 <= n <= 15
        ensures Count(ls, n) == 0
      {
        CountBelowMonotone(ls, 2, n);
        CountBelowNext(ls, n);
        CountBelowMonotone(ls, n + 1, 16);
      }
    }
  }

  lemma SingleCode(ls: seq<nat>)
    requires CountBelow(ls, 2) == CountBelow(ls, 16) && NotOver(ls) && !Complete(ls) && Count(ls, 1) > 0 && Count(ls, 0) == 0
    ensures FirstCode(ls, 1) == 0 && Count(ls, 1) == 1
  {
    assert FirstCode(ls, 1) == 0;
    NotOverAt(ls, 1);
    assert Pow2(1) == 2;
    if Count(ls, 1) == 2 {
      hide Complete, Count, CountBelow, FirstCode;
      SingleFull(ls);
    }
  }

  lemma SingleFull(ls: seq<nat>)
    requires CountBelow(ls, 2) == CountBelow(ls, 16) && FirstCode(ls, 1) + Count(ls, 1) == 2
    ensures Complete(ls)
  {
    SingleGrows(ls, 15);
  }

  lemma {:induction false} SingleGrows(ls: seq<nat>, n: nat)
    requires CountBelow(ls, 2) == CountBelow(ls, 16) && FirstCode(ls, 1) + Count(ls, 1) == 2 && 1 <= n <= 15
    ensures FirstCode(ls, n) + Count(ls, n) == Pow2(n)
    decreases n
  {
    if n == 1 {
      assert Pow2(1) == 2;
    } else {
      SingleGrows(ls, n - 1);
      CountBelowMonotone(ls, 2, n);
      CountBelowNext(ls, n);
      CountBelowMonotone(ls, n + 1, 16);
      FirstNext(ls, n - 1);
      PowTwice(n - 1);
    }
  }

  lemma HuffLeft(ls: seq<nat>, max: nat)
    ensures FirstCode(ls, max) + Count(ls, max) == Pow2(max) ==> LowValue(BitsOf(max, FirstCode(ls, max) + Count(ls, max))) == 0
    ensures max == 1 && FirstCode(ls, 1) + Count(ls, 1) == 1 ==> LowValue(BitsOf(1, FirstCode(ls, 1) + Count(ls, 1))) == 1
  {
    hide *;
    ShlNext(0, max);
    ShlNothing(max);
    LowZeros(max, 1);
    ZerosAreZero(max);
    OneBit();
    OneOne();
  }

  lemma OneOne()
    ensures BitsOf(1, 1) == [true]
  {
    assert BitsOf(1, 1) == BitsOf(0, 0) + [true] == [true];
  }

  /** The longest length in use. */
  ghost predicate Longest(ls: seq<nat>, m: nat) {
    1 <= m <= 15 && Count(ls, m) > 0 && CountBelow(ls, m + 1) == CountBelow(ls, 16)
  }

  lemma LongestOne(ls: seq<nat>, m: nat, n: nat)
    requires Longest(ls, m) && Longest(ls, n)
    ensures m == n
  {
    CountBelowNext(ls, m);
    CountBelowNext(ls, n);
    hide Count, CountBelow;
    if m < n { CountBelowMonotone(ls, m + 1, n); }
    if n < m { CountBelowMonotone(ls, n + 1, m); }
  }

  /** The number of root bits, and how many entries there can be: one sub-table at most for every code that is longer. */
  ghost predicate Size(ls: seq<nat>, bits: nat, root: nat, used: nat) {
    forall m :: Longest(ls, m) ==>
      && (bits >= m ==> root == m) && (bits < m && CountBelow(ls, bits + 1) > 0 ==> root == bits)
      && used <= MostUsed(root, m, Longer(ls, root, CountBelow(ls, 16)))
  }

  lemma SizeIs(ls: seq<nat>, bits: nat, root: nat, used: nat, max: nat)
    requires 1 <= max <= 15 && Count(ls, max) > 0 && CountBelow(ls, max + 1) == CountBelow(ls, 16)
    requires (bits >= max ==> root == max) && (bits < max && CountBelow(ls, bits + 1) > 0 ==> root == bits)
    requires used <= MostUsed(root, max, Longer(ls, root, CountBelow(ls, 16)))
    ensures Size(ls, bits, root, used)
  {
    hide Longest, MostUsed, Longer, CountBelow;
    assert Longest(ls, max) by { IsLongest(ls, max); }
    forall m | Longest(ls, m)
      ensures m == max
    {
      LongestOne(ls, m, max);
    }
  }

  lemma IsLongest(ls: seq<nat>, max: nat)
    requires 1 <= max <= 15 && Count(ls, max) > 0 && CountBelow(ls, max + 1) == CountBelow(ls, 16)
    ensures Longest(ls, max)
  {
  }

  /** Some code is longer than the index of the root table. */
  ghost predicate LongCode(ls: seq<nat>, bits: nat) {
    exists n :: bits < n <= 15 && Count(ls, n) > 0
  }

  lemma LongCodeIs(ls: seq<nat>, bits: nat, root: nat, max: nat)
    requires max <= 15 && Count(ls, max) > 0 && (bits >= max ==> root == max)
    ensures root < max || (bits <= 9 && (Pow2(root) >= 592 || Pow2(root) >= 852)) ==> LongCode(ls, bits)
  {
    if bits <= 9 && bits >= max {
      Pow2Monotone(root, 9);
      assert Pow2(3) == 8 && Pow2(6) == 64 && Pow2(9) == 512;
    }
  }

  /** The reply to a code that is not accepted. */
  ghost predicate Rejected(ls: seq<nat>, kind: Kind) {
    AnyCode(ls) && (!NotOver(ls) || (!Complete(ls) && (kind.CODES? || !OnlyOne(ls))))
  }

  /**
   inflate_table. 1 is returned when the tables outgrow the space that is set aside, and never otherwise. -1 is returned exactly
   for codes that are over-subscribed, or incomplete without being a single bit; whenever 0 is returned for a code with a symbol,
   the table decodes that code.
   */
  method MakeTable(kind: Kind, lens: array<nat>, codes: nat, table: array<Entry>, bits: nat, work: array<nat>)
    returns (ret: int, used: nat, root: nat)
    requires lens != work && codes <= lens.Length && codes <= Symbols(kind) && codes <= work.Length && 852 <= table.Length
    requires forall i :: 0 <= i < codes ==> lens[i] <= if kind.CODES? then 7 else 15
    requires kind.CODES? ==> bits == 7
    modifies table, work
    ensures ret == -1 || ret == 0 || ret == 1
    ensures var ls := UsedLengths(old(lens[..codes]));
      && (ret == -1 <==> Rejected(ls, kind))
      && (ret == 0 && !AnyCode(ls) ==> root == 1 && used == 2 && table[0] == table[1] == Entry(64, 1, 0))
      && (ret == 0 && AnyCode(ls) ==> Decoder(table[..], ls, kind, root, used))
      && (ret == 0 && AnyCode(ls) && !Complete(ls) ==> root == 1 && used == 2 && table[1] == Entry(64, 1, 0))
    ensures (ret == 1 ==> NotEnough(kind, used) && !kind.CODES?) && (ret == 0 ==> !NotEnough(kind, used))
    ensures ret == 1 && bits <= 9 ==> LongCode(UsedLengths(old(lens[..codes])), bits)
    ensures ret != -1 && AnyCode(UsedLengths(old(lens[..codes]))) ==> Size(UsedLengths(old(lens[..codes])), bits, root, used)
  {
    hide *;
    ghost var ls := UsedLengths(lens[..codes]);
    LengthsFit(kind, lens[..codes]);
    UsedIs(lens[..codes]);
    NoLengthZero(lens[..codes]);
    var count := new nat[16];
    CountLengths(lens, codes, count, ls);
    var max, min;
    max, min, root := Bounds(count, bits, ls);
    used := 2;
    if max == 0 {
      table[0], table[1] := Entry(64, 1, 0), Entry(64, 1, 0);
      NotRejected(ls, kind);
      EnoughMeans(kind, 2);
      return 0, 2, 1;
    }
    var over, left := Leftover(count, ls);
    RejectedIs(ls, kind);
    if over { return -1, used, root; }
    LeftMeans(ls, max, left);
    if left > 0 && (kind == CODES || max != 1) { return -1, used, root; }
    SortSymbols(lens, codes, count, work, ls);
    EnoughMeans(kind, Pow2(root));
    LongCodeIs(ls, bits, root, max);
    EnoughSizes(kind, Pow2(root));
    MostUsedNext(root, max, Longer(ls, root, CountBelow(ls, 16)));
    SizeIs(ls, bits, root, Pow2(root), max);
    if NotEnough(kind, Pow2(root)) { return 1, Pow2(root), root; }
    ShortCodes(kind, old(lens[..codes]), max);
    var ok, w, huff;
    ghost var sub, top;
    ok, w, huff, sub, top := EnterAll(table, kind, lens, work, count, root, min, max, ls);
    used := w.used;
    SizeIs(ls, bits, root, used, max);
    if !ok { return 1, used, root; }
    HuffLeft(ls, max);
    if left > 0 { SingleCode(ls); SingleRoot(root); } else { CompleteEnds(ls, max); }
    if huff != 0 {
      InvalidKeeps(table[..], ls, kind, top, Entry(64, 1, 0));
      ghost var t: seq<Entry> := table[..];
      table[w.next + huff] := Entry(64, max - w.drop, 0);
      assert table[..] == t[1 := Entry(64, 1, 0)];
    }
    if left > 0 { SingleCovers(ls); } else { CompleteCovers(ls, max); }
    BuiltDecodes(table[..], ls, kind, root, max, sub, top, used);
    ret := 0;
  }

  lemma SingleRoot(root: nat)
    ensures root == 1 ==> Pow2(root) == 2
  {
  }

  lemma CompleteEnds(ls: seq<nat>, max: nat)
    requires max <= 15 && CountBelow(ls, max + 1) == CountBelow(ls, 16) && Complete(ls)
    ensures FirstCode(ls, max) + Count(ls, max) == Pow2(max)
  {
    FirstNext(ls, 15);
    PowTwice(15);
    EndOfCodes(ls, max, 16);
  }

  lemma LengthsFit(kind: Kind, lens: seq<nat>)
    requires forall i :: 0 <= i < |lens| ==> lens[i] <= if kind.CODES? then 7 else 15
    ensures forall i :: 0 <= i < |lens| ==> lens[i] <= 15
  {
  }

  lemma NotRejected(ls: seq<nat>, kind: Kind)
    requires !AnyCode(ls)
    ensures !Rejected(ls, kind)
  {
  }

  lemma RejectedIs(ls: seq<nat>, kind: Kind)
    requires AnyCode(ls)
    ensures Rejected(ls, kind) <==> !NotOver(ls) || (!Complete(ls) && (kind.CODES? || !OnlyOne(ls)))
  {
    hide NotOver, Complete, OnlyOne;
  }

  /** The code of the code lengths fits the root table. */
  lemma ShortCodes(kind: Kind, lens: seq<nat>, max: nat)
    requires Count(UsedLengths(lens), max) > 0 && max <= 15
    requires forall i :: 0 <= i < |lens| ==> lens[i] <= if kind.CODES? then 7 else 15
    ensures kind.CODES? ==> max <= 7
  {
    var i := PlaceTaken(UsedLengths(lens), max, 0);
  }
}