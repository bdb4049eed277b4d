/**
 Receiving the coding tables of a block and making the decoding tables (dep/bzip2/decompress.c). It can be interrupted at
 every bit.
 */
module CodeTables {
  import opened Bits
  import opened BitReader
  import opened CodingTables
  import opened HuffmanCode

  /** Where receiving the tables can be interrupted, with the locals that are saved there: BZ_X_CODING_1 to 3. */
  datatype CodeAt = Coding1(t: nat) | Coding2(t: nat, i: nat, curr: nat) | Coding3(t: nat, i: nat, curr: nat)

  /** At the first or the second bit of a step. */
  function StepFrom(second: bool, bits: seq<bool>, curr: nat): (r: Read<nat>)
    requires second ==> 1 <= curr
    ensures r.Done? ==> 1 <= r.value <= 20 && |r.rest| < |bits|
  {
    if second then ReadStep(bits, curr) else ReadLength(bits, curr)
  }

  lemma StepOn(second: bool, bits: seq<bool>, curr: nat)
    requires 1 <= curr <= 20
    ensures bits == [] ==> StepFrom(second, bits, curr) == Stop(NeedInput)
    ensures bits != [] && !second ==> StepFrom(second, bits, curr) == if bits[0] then StepFrom(true, bits[1..], curr) else Done(curr, bits[1..])
    ensures bits != [] && second ==> StepFrom(second, bits, curr) == StepFrom(false, bits[1..], if bits[0] then curr - 1 else curr + 1)
  {
  }

  lemma BadLength(bits: seq<bool>, curr: nat)
    requires curr < 1 || curr > 20
    ensures StepFrom(false, bits, curr) == Stop(DataError)
  {
  }

  /** One length, from the first or the second bit of a step on. */
  method ReceiveLength(r: Reader, second0: bool, curr0: nat, ghost more: seq<bool>) returns (st: Status, second: bool, curr: nat)
    requires r.Valid() && (second0 ==> 1 <= curr0 <= 20)
    modifies r
    ensures r.Valid() && |r.Unread()| <= |old(r.Unread())| && (st == Ok ==> |r.Unread()| < |old(r.Unread())|)
    ensures st == Waiting ==> 1 <= curr <= 20 && r.input == []
    ensures Resumes(st, curr, r.Ahead(more), old(StepFrom(second0, r.Ahead(more), curr0)),
                    if st == Waiting then StepFrom(second, r.Ahead(more), curr) else Stop(NeedInput),
                    if st == Waiting then StepFrom(second, r.Unread(), curr) else Stop(NeedInput))
  {
    hide *;
    second, curr := second0, curr0;
    ghost var was := StepFrom(second, r.Ahead(more), curr);
    while true
      invariant r.Valid() && (second ==> 1 <= curr <= 20) && |r.Unread()| <= |old(r.Unread())|
      invariant was == StepFrom(second, r.Ahead(more), curr)
      decreases |r.Unread()|
    {
      if !second && (curr < 1 || curr > 20) {
        BadLength(r.Ahead(more), curr);
        ResumesIs(Failed(DataError), curr, r.Ahead(more), was, Stop(NeedInput), Stop(NeedInput));
        return Failed(DataError), second, curr;
      }
      StepOn(second, r.Ahead(more), curr);
      StepOn(second, r.Unread(), curr);
      var ok, uc := r.GetBit(more);
      if !ok {
        ResumesIs(Waiting, curr, r.Ahead(more), was, StepFrom(second, r.Ahead(more), curr), StepFrom(second, r.Unread(), curr));
        return Waiting, second, curr;
      }
      if second {
        if !uc { curr := curr + 1; } else { curr := curr - 1; }
        second := false;
      } else {
        if !uc { break; }
        second := true;
      }
    }
    ResumesIs<nat>(Ok, curr, r.Ahead(more), was, Stop(NeedInput), Stop(NeedInput));
    st := Ok;
  }

  /** The lengths of a table of which those in p are there. */
  function LengthsFrom(p: seq<nat>, first: Read<nat>, n: nat): (r: Read<seq<nat>>)
    requires |p| < n && InRange(p) && (first.Done? ==> 1 <= first.value <= 20)
    ensures r.Done? ==> first.Done? && |r.value| == n && InRange(r.value)
  {
    Prepend(p, ThenLengths(first, n - |p|))
  }

  lemma LengthsOn(p: seq<nat>, first: Read<nat>, n: nat)
    requires |p| < n && InRange(p) && (first.Done? ==> 1 <= first.value <= 20)
    ensures first.Stop? ==> LengthsFrom(p, first, n) == Stop(first.why)
    ensures first.Done? ==> InRange(p + [first.value])
    ensures first.Done? && |p| + 1 == n ==> LengthsFrom(p, first, n) == Done(p + [first.value], first.rest)
    ensures first.Done? && |p| + 1 < n ==>
              LengthsFrom(p, first, n) == LengthsFrom(p + [first.value], StepFrom(false, first.rest, first.value), n)
  {
    if first.Done? {
      PrependPrepend(p, [first.value], ReadLengths(first.rest, first.value, n - |p| - 1));
      assert p + [first.value] + [] == p + [first.value];
    }
  }

  /** The tables of which those in p are there. */
  ghost function TablesFrom(p: seq<seq<nat>>, first: Read<seq<nat>>, nGroups: nat, n: nat): (r: Read<seq<seq<nat>>>)
    requires |p| < nGroups && Lengths(p, n) && (first.Done? ==> |first.value| == n && InRange(first.value))
    ensures r.Done? ==> |r.value| == nGroups && Lengths(r.value, n)
  {
    Prepend(p, ThenTables(first, nGroups - |p|, n))
  }

  lemma TablesOn(p: seq<seq<nat>>, first: Read<seq<nat>>, nGroups: nat, n: nat)
    requires |p| < nGroups && Lengths(p, n) && (first.Done? ==> |first.value| == n && InRange(first.value))
    ensures first.Stop? ==> TablesFrom(p, first, nGroups, n) == Stop(first.why)
    ensures first.Done? ==> Lengths(p + [first.value], n)
    ensures first.Done? && |p| + 1 == nGroups ==> TablesFrom(p, first, nGroups, n) == Done(p + [first.value], first.rest)
    ensures first.Done? && |p| + 1 < nGroups ==>
              TablesFrom(p, first, nGroups, n) == TablesFrom(p + [first.value], ReadTable(first.rest, n), nGroups, n)
  {
    hide InRange;
    if first.Done? {
      PrependPrepend(p, [first.value], ReadTables(first.rest, nGroups - |p| - 1, n));
      assert p + [first.value] + [] == p + [first.value];
    }
  }

  class CodeTables {
    const len: seq<array<nat>>
    const limit: seq<array<int>>
    const base: seq<array<int>>
    const perm: seq<array<nat>>
    const minLens: array<nat>
    ghost const Repr: set<object>

    ghost predicate Valid()
    {
      && |len| == |limit| == |base| == |perm| == 6 && minLens.Length == 6 && this in Repr && minLens in Repr
      && (forall t :: 0 <= t < 6 ==> len[t].Length == limit[t].Length == base[t].Length == perm[t].Length == 258)
      && (forall t :: 0 <= t < 6 ==> len[t] in Repr && limit[t] in Repr && base[t] in Repr && perm[t] in Repr)
      && (forall s, t :: 0 <= s < t < 6 ==> len[s] != len[t] && limit[s] != limit[t] && base[s] != base[t] && perm[s] != perm[t])
      && (forall s, t :: 0 <= s < 6 && 0 <= t < 6 ==> len[s] != perm[t] && limit[s] != base[t])
      && (forall t :: 0 <= t < 6 ==> minLens != len[t] && minLens != perm[t])
    }

    constructor ()
      ensures Valid() && fresh(Repr)
    {
      var a: seq<array<nat>>, b: seq<array<int>>, c: seq<array<int>>, d: seq<array<nat>> := [], [], [], [];
      var m := new nat[6];
      ghost var repr: set<object> := {m};
      while |a| < 6
        invariant |a| == |b| == |c| == |d| <= 6 && fresh(repr) && m in repr && m.Length == 6
        invariant forall t :: 0 <= t < |a| ==> a[t].Length == b[t].Length == c[t].Length == d[t].Length == 258
        invariant forall t :: 0 <= t < |a| ==> a[t] in repr && b[t] in repr && c[t] in repr && d[t] in repr
        invariant forall s, t :: 0 <= s < t < |a| ==> a[s] != a[t] && b[s] != b[t] && c[s] != c[t] && d[s] != d[t]
        invariant forall s, t :: 0 <= s < |a| && 0 <= t < |a| ==> a[s] != d[t] && b[s] != c[t]
        invariant forall t :: 0 <= t < |a| ==> m != a[t] && m != d[t]
      {
        var l, li, ba, pe := new nat[258], new int[258], new int[258], new nat[258];
        a, b, c, d := a + [l], b + [li], c + [ba], d + [pe];
        repr := repr + {l, pe} + {li, ba};
      }
      len, limit, base, perm, minLens := a, b, c, d, m;
      Repr := repr + {this};
    }

    ghost function Received(t: nat, n: nat): (tables: seq<seq<nat>>)
      requires Valid() && t <= 6 && n <= 258
      reads this, len
      ensures |tables| == t && forall k :: 0 <= k < t ==> tables[k] == len[k][..n]
    {
      seq(t, k requires 0 <= k < t && Valid() && t <= 6 && n <= 258 reads this, len => len[k][..n])
    }

    /** At label at: the tables before table t are there, and the first i lengths of table t. */
    ghost predicate Stands(at: CodeAt, nGroups: nat, n: nat)
      requires Valid()
      reads this, len
    {
      && at.t < nGroups <= 6 && 1 <= n <= 258 && Lengths(Received(at.t, n), n)
      && (!at.Coding1? ==> at.i < n && 1 <= at.curr <= 20 && InRange(len[at.t][..at.i]))
    }

    /** What reading on from label at gives. */
    ghost function Rest(at: CodeAt, nGroups: nat, n: nat, bits: seq<bool>): (tables: Read<seq<seq<nat>>>)
      requires Valid() && Stands(at, nGroups, n)
      reads this, len
      ensures tables.Done? ==> |tables.value| == nGroups && Lengths(tables.value, n)
    {
      TablesFrom(Received(at.t, n),
                 if at.Coding1? then ReadTable(bits, n) else LengthsFrom(len[at.t][..at.i], StepFrom(at.Coding3?, bits, at.curr), n),
                 nGroups, n)
    }

    lemma TableShape()
      requires Valid()
      ensures |len| == |limit| == |base| == |perm| == 6 && minLens.Length == 6 && this in Repr
      ensures forall t :: 0 <= t < 6 ==> len[t].Length == limit[t].Length == base[t].Length == perm[t].Length == 258
      ensures forall t :: 0 <= t < 6 ==> len[t] in Repr && limit[t] in Repr && base[t] in Repr && perm[t] in Repr && len[t] as object != this
      ensures forall s, t :: 0 <= s < t < 6 ==> len[s] != len[t]
    {
    }

    lemma StandsIs(at: CodeAt, nGroups: nat, n: nat, bits: seq<bool>)
      requires Valid()
      ensures Stands(at, nGroups, n) <==>
                && at.t < nGroups <= 6 && 1 <= n <= 258 && Lengths(Received(at.t, n), n)
                && (!at.Coding1? ==> at.i < n && 1 <= at.curr <= 20 && InRange(len[at.t][..at.i]))
      ensures Stands(at, nGroups, n) ==>
                Rest(at, nGroups, n, bits)
                == TablesFrom(Received(at.t, n),
                              if at.Coding1? then ReadTable(bits, n)
                              else LengthsFrom(len[at.t][..at.i], StepFrom(at.Coding3?, bits, at.curr), n), nGroups, n)
    {
    }

    /** The lengths of table t from length i on. */
    method ReceiveLengths(r: Reader, t: nat, n: nat, i0: nat, second0: bool, curr0: nat,
                          ghost more: seq<bool>, ghost was: Read<seq<nat>>)
      returns (st: Status, i: nat, second: bool, curr: nat)
      requires Valid() && r.Valid() && r !in Repr && t < 6 && i0 < n <= 258 && InRange(len[t][..i0])
      requires (second0 ==> 1 <= curr0 <= 20) && was == LengthsFrom(len[t][..i0], StepFrom(second0, r.Ahead(more), curr0), n)
      modifies r, len[t]
      ensures r.Valid() && |r.Unread()| <= |old(r.Unread())| && (st == Ok ==> |r.Unread()| < |old(r.Unread())|)
      ensures st == Waiting ==> i < n && InRange(len[t][..i]) && 1 <= curr <= 20 && r.input == []
      ensures st == Ok ==> InRange(len[t][..n])
      ensures Resumes(st, len[t][..n], r.Ahead(more), was,
                      if st == Waiting then LengthsFrom(len[t][..i], StepFrom(second, r.Ahead(more), curr), n) else Stop(NeedInput),
                      if st == Waiting then LengthsFrom(len[t][..i], StepFrom(second, r.Unread(), curr), n) else Stop(NeedInput))
    {
      hide *;
      TableShape();
      i, second, curr := i0, second0, curr0;
      while i < n
        invariant i0 <= i <= n && r.Valid() && len[t].Length == 258 && InRange(len[t][..i]) && (second ==> 1 <= curr <= 20)
        invariant |r.Unread()| <= |old(r.Unread())| && (i > i0 ==> |r.Unread()| < |old(r.Unread())|)
        invariant i < n ==> was == LengthsFrom(len[t][..i], StepFrom(second, r.Ahead(more), curr), n)
        invariant i == n ==> was == Done(len[t][..n], r.Ahead(more))
      {
        ghost var p, first := len[t][..i], StepFrom(second, r.Ahead(more), curr);
        LengthsOn(p, first, n);
        st, second, curr := ReceiveLength(r, second, curr, more);
        ghost var now := if st == Waiting then StepFrom(second, r.Ahead(more), curr) else Stop(NeedInput);
        ghost var sofar := if st == Waiting then StepFrom(second, r.Unread(), curr) else Stop(NeedInput);
        ResumesIs(st, curr, r.Ahead(more), first, now, sofar);
        LengthsOn(p, sofar, n);
        if st != Ok {
          ResumesIs(st, len[t][..n], r.Ahead(more), was, LengthsFrom(p, now, n), LengthsFrom(p, sofar, n));
          return;
        }
        len[t][i] := curr;
        assert len[t][..i + 1] == p + [curr];
        i, second := i + 1, false;
      }
      ResumesIs<seq<nat>>(Ok, len[t][..n], r.Ahead(more), was, Stop(NeedInput), Stop(NeedInput));
      st := Ok;
    }

    lemma OneMore(t: nat, n: nat)
      requires Valid() && t < 6 && n <= 258
      ensures Received(t + 1, n) == Received(t, n) + [len[t][..n]]
    {
    }

    /** Now the coding tables. */
    method Receive(r: Reader, at0: CodeAt, nGroups: nat, n: nat, ghost more: seq<bool>) returns (st: Status, at: CodeAt)
      requires Valid() && r.Valid() && r !in Repr && Stands(at0, nGroups, n)
      modifies r, len
      ensures r.Valid() && |r.Unread()| <= |old(r.Unread())| && (st == Ok ==> |r.Unread()| < |old(r.Unread())|)
      ensures st == Waiting ==> Stands(at, nGroups, n) && r.input == []
      ensures st == Ok ==> Lengths(Received(nGroups, n), n)
      ensures nGroups <= 6 && n <= 258
      ensures Resumes(st, Received(nGroups, n), r.Ahead(more), old(Rest(at0, nGroups, n, r.Ahead(more))),
                      if st == Waiting then Rest(at, nGroups, n, r.Ahead(more)) else Stop(NeedInput),
                      if st == Waiting then Rest(at, nGroups, n, r.Unread()) else Stop(NeedInput))
    {
      hide *;
      TableShape();
      at := at0;
      ghost var was := Rest(at, nGroups, n, r.Ahead(more));
      StandsIs(at, nGroups, n, r.Ahead(more));
      while at.t < nGroups
        invariant r.Valid() && nGroups <= 6 && 1 <= n <= 258 && at.t <= nGroups && Lengths(Received(at.t, n), n)
        invariant at.t < nGroups ==> Stands(at, nGroups, n) && was == Rest(at, nGroups, n, r.Ahead(more))
        invariant at.t == nGroups ==> was == Done(Received(nGroups, n), r.Ahead(more)) && |r.Unread()| < |old(r.Unread())|
        invariant |r.Unread()| <= |old(r.Unread())|
        decreases nGroups - at.t
      {
        st, at := ReceiveOne(r, at, nGroups, n, more);
        ghost var now := if st == Waiting then Rest(at, nGroups, n, r.Ahead(more)) else Stop(NeedInput);
        ghost var sofar := if st == Waiting then Rest(at, nGroups, n, r.Unread()) else Stop(NeedInput);
        if st != Ok {
          ResumesIs(st, Received(nGroups, n), r.Ahead(more), was, now, sofar);
          return;
        }
      }
      ResumesIs<seq<seq<nat>>>(Ok, Received(nGroups, n), r.Ahead(more), was, Stop(NeedInput), Stop(NeedInput));
      st := Ok;
    }

    /** The rest of one table. */
    method ReceiveOne(r: Reader, at0: CodeAt, nGroups: nat, n: nat, ghost more: seq<bool>) returns (st: Status, at: CodeAt)
      requires Valid() && r.Valid() && r !in Repr && Stands(at0, nGroups, n)
      modifies r, len
      ensures r.Valid() && |r.Unread()| <= |old(r.Unread())| && (st == Ok ==> |r.Unread()| < |old(r.Unread())|)
      ensures nGroups <= 6 && 1 <= n <= 258
      ensures var was := old(Rest(at0, nGroups, n, r.Ahead(more)));
              && (st == Ok ==>
                    && at == Coding1(at0.t + 1) && at.t <= nGroups && Lengths(Received(at.t, n), n)
                    && (at.t == nGroups ==> was == Done(Received(nGroups, n), r.Ahead(more)))
                    && (at.t < nGroups ==> Stands(at, nGroups, n) && was == Rest(at, nGroups, n, r.Ahead(more))))
              && (st == Waiting ==>
                    && r.input == [] && Stands(at, nGroups, n) && was == Rest(at, nGroups, n, r.Ahead(more))
                    && Rest(at, nGroups, n, r.Unread()) == Stop(NeedInput))
              && (st.Failed? ==> was == Stop(st.why) && st.why != NeedInput)
    {
      hide *;
      TableShape();
      at := at0;
      var t := at.t;
      StandsIs(at, nGroups, n, r.Ahead(more));
      ghost var was, p := Rest(at, nGroups, n, r.Ahead(more)), Received(t, n);
      var i: nat, second, curr: nat := 0, false, 0;
      if at.Coding1? {
        StandsIs(at, nGroups, n, r.Unread());
        TableOn(r.Ahead(more), n);
        TableOn(r.Unread(), n);
        TablesOn(p, ReadTable(r.Unread(), n), nGroups, n);
        var ok;
        ok, curr := r.GetBits(5, more);
        if !ok { return Waiting, at; }
        assert len[t][..0] == [];
        NothingYet();
      } else {
        i, second, curr := at.i, at.Coding3?, at.curr;
      }
      ghost var first := LengthsFrom(len[t][..i], StepFrom(second, r.Ahead(more), curr), n);
      TablesOn(p, first, nGroups, n);
      st, i, second, curr := ReceiveLengths(r, t, n, i, second, curr, more, first);
      ghost var now := if st == Waiting then LengthsFrom(len[t][..i], StepFrom(second, r.Ahead(more), curr), n) else Stop(NeedInput);
      ghost var sofar := if st == Waiting then LengthsFrom(len[t][..i], StepFrom(second, r.Unread(), curr), n) else Stop(NeedInput);
      ResumesIs(st, len[t][..n], r.Ahead(more), first, now, sofar);
      TablesOn(p, sofar, nGroups, n);
      SameTables(p, t, n);
      if st == Ok {
        at := Coding1(t + 1);
        OneMore(t, n);
        StandsIs(at, nGroups, n, r.Ahead(more));
      } else if st == Waiting {
        at := if second then Coding3(t, i, curr) else Coding2(t, i, curr);
        StandsIs(at, nGroups, n, r.Ahead(more));
        StandsIs(at, nGroups, n, r.Unread());
      }
    }

    /** limit, base, perm and minLens hold the decoding tables of all coding tables. */
    ghost predicate Made(tables: seq<seq<nat>>)
      requires Valid()
      reads this, limit, base, perm, minLens
    {
      && |tables| <= 6
      && forall t :: 0 <= t < |tables| ==>
           |tables[t]| <= 258 && Decoding(tables[t], minLens[t], limit[t][..], base[t][..], perm[t][..])
    }

    /** Create the Huffman decoding tables. */
    method MakeTables(nGroups: nat, n: nat)
      requires Valid() && nGroups <= 6 && 1 <= n <= 258 && Lengths(Received(nGroups, n), n)
      modifies limit, base, perm, minLens
      ensures Made(Received(nGroups, n))
    {
      ghost var tables := Received(nGroups, n);
      hide Tables, InRange, Decoding;
      var t := 0;
      while t < nGroups
        invariant 0 <= t <= nGroups && Received(nGroups, n) == tables
        invariant forall k :: 0 <= k < t ==>
                    |tables[k]| <= 258 && Decoding(tables[k], minLens[k], limit[k][..], base[k][..], perm[k][..])
      {
        MakeTable(t, n);
        t := t + 1;
      }
    }

    method MakeTable(t: nat, n: nat)
      requires Valid() && t < 6 && 1 <= n <= 258 && InRange(len[t][..n])
      modifies limit[t], base[t], perm[t], minLens
      ensures Decoding(len[t][..n], minLens[t], limit[t][..], base[t][..], perm[t][..])
      ensures forall k :: 0 <= k < 6 && k != t ==> minLens[k] == old(minLens[k])
    {
      hide Tables;
      assert forall i :: 0 <= i < n ==> len[t][i] == len[t][..n][i];
      var minLen, maxLen := LengthRange(len[t], n);
      CreateDecodeTables(limit[t], base[t], perm[t], len[t], minLen, maxLen, n);
      minLens[t] := minLen;
    }

    lemma SameTables(p: seq<seq<nat>>, t: nat, n: nat)
      requires Valid() && t <= 6 && n <= 258 && |p| == t && forall k :: 0 <= k < t ==> p[k] == len[k][..n]
      ensures Received(t, n) == p
    {
    }
  }

  lemma NothingYet()
    ensures InRange([])
  {
  }

  lemma TableOn(bits: seq<bool>, n: nat)
    requires n >= 1
    ensures |bits| < 5 ==> ReadTable(bits, n) == Stop(NeedInput)
    ensures InRange([])
    ensures |bits| >= 5 ==> ReadTable(bits, n) == LengthsFrom([], StepFrom(false, bits[5..], Value(bits[..5])), n)
  {
    if |bits| >= 5 {
      PrependPrepend([], [], ReadLengths(bits[5..], Value(bits[..5]), n));
    }
  }
}
