/** The decoding tables that inflate_table builds (dep/zlib/inftrees.c), as the codes of a block: what the next symbol is. */
module InflateSymbols {
  import opened Bits
  import opened CountingOrder
  import opened HuffmanCode
  import opened HuffmanDecode
  import opened LowBits
  import opened InflateCode
  import opened InflateEntries
  import opened InflateTable
  import opened InflateSpec

  /** Whatever symbol a bit string begins with is found, with its length. */
  ghost predicate Decodes(c: Code, kind: Kind, ls: seq<nat>) {
    && c.root >= 1
    && forall x: seq<bool>, i: nat :: Begins(ls, x, i) ==> i < |ls| && LooksUp(c.t, kind, c.root, x, i, ls[i])
  }

  /** The tables that inflate_table makes, for a code that it accepts. */
  ghost predicate Made(c: Code, kind: Kind, ls: seq<nat>) {
    && Count(ls, 0) == 0 && CountBelow(ls, 1) == 0 && !Rejected(ls, kind)
    && (!AnyCode(ls) ==> c == Code([Entry(64, 1, 0), Entry(64, 1, 0)], 1))
    && (AnyCode(ls) ==> Decodes(c, kind, ls))
    && (AnyCode(ls) && !Complete(ls) ==> c.root == 1 && |c.t| == 2 && c.t[1] == Entry(64, 1, 0))
  }

  lemma MadeIs(c: Code, kind: Kind, ls: seq<nat>)
    requires Made(c, kind, ls)
    ensures Count(ls, 0) == 0 && CountBelow(ls, 1) == 0
    ensures AnyCode(ls) ==> NotOver(ls) && (Complete(ls) || OnlyOne(ls)) && Decodes(c, kind, ls)
    ensures !AnyCode(ls) ==> c == Code([Entry(64, 1, 0), Entry(64, 1, 0)], 1)
    ensures AnyCode(ls) && !Complete(ls) ==> c.root == 1 && |c.t| == 2 && c.t[1] == Entry(64, 1, 0)
  {
    hide Decodes, NotOver, Complete, OnlyOne, AnyCode, Count, CountBelow;
  }

  lemma DecoderAt(c: Code, kind: Kind, ls: seq<nat>, x: seq<bool>, i: nat)
    requires Decodes(c, kind, ls) && Begins(ls, x, i)
    ensures c.root >= 1 && |x| == 15 && i < |ls| && LooksUp(c.t, kind, c.root, x, i, ls[i])
  {
    hide LooksUp, Begins;
    BeginsSize(ls, x, i);
  }

  lemma LooksUpAt(c: Code, kind: Kind, x: seq<bool>, i: nat, n: nat)
    requires LooksUp(c.t, kind, c.root, x, i, n) && |x| == 15
    ensures i < Symbols(kind) && Through(c.t, c.root, x) && LookAt(c, x) == (Leaf(kind, i, 0), n)
  {
    hide Leaf, Through, LookUpIn;
  }

  lemma LeafActs(kind: Kind, i: nat)
    requires i < Symbols(kind) && !kind.CODES?
    ensures IsAction(kind, Leaf(kind, i, 0))
  {
    if kind.LENS? { LengthActs(i); }
    else { DistanceActs(i); }
  }

  lemma Powers()
    ensures Pow2(0) == 1 && Pow2(1) == 2 && Pow2(2) == 4 && Pow2(3) == 8 && Pow2(4) == 16 && Pow2(5) == 32 && Pow2(6) == 64
    ensures Pow2(7) == 128 && Pow2(8) == 256 && Pow2(9) == 512 && Pow2(10) == 1024 && Pow2(11) == 2048 && Pow2(12) == 4096
    ensures Pow2(13) == 8192
  {
    assert Pow2(3) == 8 && Pow2(6) == 64 && Pow2(9) == 512 && Pow2(11) == 2048;
  }

  lemma LengthActs(i: nat)
    requires i < 288
    ensures IsAction(LENS, Leaf(LENS, i, 0))
  {
    hide Pow2;
    Powers();
  }

  lemma DistanceActs(i: nat)
    requires i < 32
    ensures IsAction(DISTS, Leaf(DISTS, i, 0))
  {
    hide Pow2;
    Powers();
  }

  lemma BeginsSame(ls: seq<nat>, x: seq<bool>, y: seq<bool>, i: nat)
    requires Begins(ls, x, i) && |y| == 15 && i < |ls| && (ls[i] <= 15 ==> y[..ls[i]] == x[..ls[i]])
    ensures Begins(ls, y, i) && ls[i] <= 15
  {
  }

  lemma FromSymbol(c: Code, kind: Kind, ls: seq<nat>, x: seq<bool>, i: nat)
    requires Decodes(c, kind, ls) && Begins(ls, x, i) && Count(ls, 0) == 0 && !kind.CODES?
    ensures |x| == 15 && Sound(c, kind, x)
  {
    hide *;
    DecoderAt(c, kind, ls, x, i);
    LooksUpAt(c, kind, x, i, ls[i]);
    LeafActs(kind, i);
    BeginsSame(ls, x, x, i);
    LengthTaken(ls, i);
    forall y: seq<bool> | |y| == 15 && y[..ls[i]] == x[..ls[i]]
      ensures LookAt(c, y) == (Leaf(kind, i, 0), ls[i])
    {
      BeginsSame(ls, x, y, i);
      DecoderAt(c, kind, ls, y, i);
      LooksUpAt(c, kind, y, i, ls[i]);
    }
    SoundFrom(c, kind, x, Leaf(kind, i, 0), ls[i]);
  }

  lemma LengthTaken(ls: seq<nat>, i: nat)
    requires i < |ls| && Count(ls, 0) == 0
    ensures ls[i] >= 1
  {
    PlaceInRange(ls, i);
  }

  lemma SoundFrom(c: Code, kind: Kind, x: seq<bool>, e: Entry, n: nat)
    requires |x| == 15 && Through(c.t, c.root, x) && LookAt(c, x) == (e, n) && 1 <= n <= 15 && IsAction(kind, e)
    requires forall y: seq<bool> :: |y| == 15 && y[..n] == x[..n] ==> LookAt(c, y) == (e, n)
    ensures Sound(c, kind, x)
  {
    hide LookAt, Through, IsAction;
  }

  /** An entry for the invalid code of one bit. */
  lemma InvalidSound(c: Code, kind: Kind, x: seq<bool>)
    requires |x| == 15 && c.root == 1 && |c.t| == 2 && !kind.CODES?
    requires forall y: seq<bool> :: |y| == 15 && y[0] == x[0] ==> LowValue(y[..1]) < |c.t| && c.t[LowValue(y[..1])] == Entry(64, 1, 0)
    ensures Sound(c, kind, x)
  {
    forall y: seq<bool> | |y| == 15 && y[..1] == x[..1]
      ensures LookAt(c, y) == (Entry(64, 0, 0), 1)
    {
      assert y[..1][0] == x[..1][0];
    }
    assert c.t[LowValue(x[..1])] == Entry(64, 1, 0);
    SoundFrom(c, kind, x, Entry(64, 0, 0), 1);
  }

  lemma OneBitIndex(x: seq<bool>)
    requires |x| == 15
    ensures LowValue(x[..1]) == (if x[0] then 1 else 0) < Pow2(1) == 2 && Value(x[..1]) == if x[0] then 1 else 0
  {
    OneBitLow(x[..1]);
  }

  /** The only code of one bit is the code 0. */
  lemma SingleBegins(ls: seq<nat>) returns (i: nat)
    requires AnyCode(ls) && NotOver(ls) && !Complete(ls) && OnlyOne(ls) && Count(ls, 0) == 0 && CountBelow(ls, 1) == 0
    ensures forall x: seq<bool> :: |x| == 15 && !x[0] ==> Begins(ls, x, i)
  {
    hide *;
    OnlyOneIs(ls);
    CodesBelow(ls, 2, 16);
    CountBelowNext(ls, 1);
    SingleCode(ls);
    i := PlaceTaken(ls, 1, 0);
    SingleCodeIs(ls, i);
    forall x: seq<bool> | |x| == 15 && !x[0]
      ensures Begins(ls, x, i)
    {
      OneBitIndex(x);
      BeginsFrom(ls, x, i);
    }
  }

  lemma OnlyOneIs(ls: seq<nat>)
    requires OnlyOne(ls) && AnyCode(ls)
    ensures (forall k :: 2 <= k < 16 ==> Count(ls, k) == 0) && CountBelow(ls, 16) > 0
  {
  }

  lemma SingleCodeIs(ls: seq<nat>, i: nat)
    requires i < |ls| && ls[i] == 1 && Rank(ls, i) == 0 && FirstCode(ls, 1) == 0
    ensures CodeOf(ls, i) == 0
  {
  }

  lemma BeginsFrom(ls: seq<nat>, x: seq<bool>, i: nat)
    requires |x| == 15 && i < |ls| && ls[i] == 1 && Value(x[..1]) == CodeOf(ls, i)
    ensures Begins(ls, x, i)
  {
    hide CodeOf, Value;
  }

  /** The tables that inflate_table makes for lengths and distances give every bit string a meaning that the bits it takes decide. */
  lemma MadeOk(c: Code, kind: Kind, ls: seq<nat>)
    requires Made(c, kind, ls) && !kind.CODES?
    ensures CodeOk(c, kind)
  {
    hide *;
    MadeIs(c, kind, ls);
    forall x: seq<bool> | |x| == 15
      ensures Sound(c, kind, x)
    {
      if !AnyCode(ls) {
        forall y: seq<bool> | |y| == 15 && y[0] == x[0]
          ensures LowValue(y[..1]) < |c.t| && c.t[LowValue(y[..1])] == Entry(64, 1, 0)
        {
          OneBitIndex(y);
        }
        InvalidSound(c, kind, x);
      } else if Complete(ls) {
        CompleteIs(ls);
        var i := AllDecoded(ls, x);
        FromSymbol(c, kind, ls, x, i);
      } else {
        var i := SingleBegins(ls);
        if x[0] {
          forall y: seq<bool> | |y| == 15 && y[0] == x[0]
            ensures LowValue(y[..1]) < |c.t| && c.t[LowValue(y[..1])] == Entry(64, 1, 0)
          {
            OneBitIndex(y);
          }
          InvalidSound(c, kind, x);
        } else {
          FromSymbol(c, kind, ls, x, i);
        }
      }
    }
    RootIs(c, kind, ls);
    CodeOkFrom(c, kind);
  }

  lemma CompleteIs(ls: seq<nat>)
    ensures Complete(ls) <==> FirstCode(ls, 15) + Count(ls, 15) == Pow2(15)
  {
  }

  lemma RootIs(c: Code, kind: Kind, ls: seq<nat>)
    requires Made(c, kind, ls)
    ensures c.root >= 1
  {
    hide AnyCode, Complete, Begins, LooksUp;
  }

  lemma CodeOkFrom(c: Code, kind: Kind)
    requires c.root >= 1 && forall x: seq<bool> :: |x| == 15 ==> Sound(c, kind, x)
    ensures CodeOk(c, kind)
  {
    hide Sound;
  }

  /** When the bits start with the code of a symbol, that symbol is next, after exactly its own bits. */
  lemma NextIsSymbol(c: Code, kind: Kind, ls: seq<nat>, s: seq<bool>, i: nat)
    requires Made(c, kind, ls) && i < |ls| && ls[i] <= 15 && StartsWith(ls, s, i)
    ensures i < Symbols(kind) && NextEntry(c, s) == Found(Leaf(kind, i, 0), s[ls[i]..])
  {
    hide *;
    MadeIs(c, kind, ls);
    LengthTaken(ls, i);
    SomeCode(ls, i);
    StartsIs(ls, s, i);
    PadPrefix(s, [], ls[i]);
    StartsIs(ls, Pad(s), i);
    DecoderAt(c, kind, ls, Pad(s), i);
    LooksUpAt(c, kind, Pad(s), i, ls[i]);
    NextFrom(c, s, Leaf(kind, i, 0), ls[i]);
  }

  lemma SomeCode(ls: seq<nat>, i: nat)
    requires i < |ls| && ls[i] <= 15
    ensures AnyCode(ls)
  {
    PlaceInRange(ls, i);
    CountBelowMonotone(ls, ls[i] + 1, 16);
  }

  lemma StartsIs(ls: seq<nat>, s: seq<bool>, i: nat)
    ensures StartsWith(ls, s, i) <==> i < |ls| && ls[i] <= |s| && Value(s[..ls[i]]) == CodeOf(ls, i)
    ensures |s| == 15 ==> (Begins(ls, s, i) <==> StartsWith(ls, s, i))
  {
    hide CodeOf, Value;
  }

  lemma NextFrom(c: Code, s: seq<bool>, e: Entry, n: nat)
    requires LookAt(c, Pad(s)) == (e, n) && 1 <= n <= |s|
    ensures NextEntry(c, s) == Found(e, s[n..])
  {
    hide LookAt, Pad;
  }

  /**
   inflate makes the tables of a block from the lengths of its codes (dep/zlib/inflate.c:993-1014). They are accepted exactly when neither
   set is over-subscribed or incomplete and the tables do not outgrow their space; this can only happen with codes longer than the
   index of the root table.
   */
  method MakeCodes(lens: array<nat>, dists: array<nat>, work: array<nat>, window: nat) returns (ok: bool, cs: Codes, lused: nat, dused: nat)
    requires lens != work && dists != work && lens.Length <= 288 <= work.Length && dists.Length <= 32
    requires forall i :: 0 <= i < lens.Length ==> lens[i] <= 15
    requires forall i :: 0 <= i < dists.Length ==> dists[i] <= 15
    modifies work
    ensures var l, d := UsedLengths(lens[..]), UsedLengths(dists[..]);
            && (ok <==> Accepted(LENS, l, lused) && Accepted(DISTS, d, dused))
            && (!Rejected(l, LENS) && NotEnough(LENS, lused) ==> LongCode(l, 9))
            && (Accepted(LENS, l, lused) && !Rejected(d, DISTS) && NotEnough(DISTS, dused) ==> LongCode(d, 6))
            && (!Rejected(l, LENS) && AnyCode(l) ==> Sized(l, 9, lused))
            && (Accepted(LENS, l, lused) && !Rejected(d, DISTS) && AnyCode(d) ==> Sized(d, 6, dused))
            && (ok ==> cs.window == window && CodesOk(cs) && Made(cs.lens, LENS, l) && Made(cs.dists, DISTS, d))
  {
    hide *;
    HowMany();
    NotEnoughFew();
    var lcode, l;
    lcode, l, lused := MakeCode(LENS, lens, 9, work);
    dused := 0;
    AcceptedIs(LENS, UsedLengths(lens[..]), lused);
    AcceptedIs(DISTS, UsedLengths(dists[..]), dused);
    if l {
      var dcode, d;
      dcode, d, dused := MakeCode(DISTS, dists, 6, work);
      AcceptedIs(DISTS, UsedLengths(dists[..]), dused);
      ok := d;
      cs := Codes(lcode, dcode, window);
      if ok {
        MadeOk(lcode, LENS, UsedLengths(lens[..]));
        MadeOk(dcode, DISTS, UsedLengths(dists[..]));
        CodesOkIs(cs);
      }
    } else {
      ok, cs := false, Codes(lcode, lcode, window);
    }
  }

  /** A set of lengths that is neither over-subscribed nor incomplete, whose tables do not outgrow their space. */
  ghost predicate Accepted(kind: Kind, ls: seq<nat>, used: nat) {
    !Rejected(ls, kind) && !NotEnough(kind, used)
  }

  lemma AcceptedIs(kind: Kind, ls: seq<nat>, used: nat)
    ensures Accepted(kind, ls, used) <==> !Rejected(ls, kind) && !NotEnough(kind, used)
  {
    hide Rejected, NotEnough;
  }

  /** The number of entries, for some number of root bits. */
  ghost predicate Sized(ls: seq<nat>, bits: nat, used: nat) {
    exists root :: Size(ls, bits, root, used)
  }

  lemma IsSized(ls: seq<nat>, bits: nat, root: nat, used: nat)
    requires Size(ls, bits, root, used)
    ensures Sized(ls, bits, used)
  {
    hide Size;
  }

  lemma NotEnoughFew()
    ensures !NotEnough(DISTS, 0)
  {
  }

  lemma HowMany()
    ensures Symbols(LENS) == 288 && Symbols(DISTS) == 32
  {
  }

  method MakeCode(kind: Kind, lens: array<nat>, bits: nat, work: array<nat>) returns (c: Code, ok: bool, used: nat)
    requires lens != work && lens.Length <= Symbols(kind) <= work.Length && !kind.CODES? && bits <= 9
    requires forall i :: 0 <= i < lens.Length ==> lens[i] <= 15
    modifies work
    ensures ok ==> Made(c, kind, UsedLengths(lens[..]))
    ensures ok <==> Accepted(kind, UsedLengths(lens[..]), used)
    ensures !Rejected(UsedLengths(lens[..]), kind) && NotEnough(kind, used) ==> LongCode(UsedLengths(lens[..]), bits)
    ensures !Rejected(UsedLengths(lens[..]), kind) && AnyCode(UsedLengths(lens[..])) ==> Sized(UsedLengths(lens[..]), bits, used)
  {
    hide *;
    ghost var ls := UsedLengths(lens[..]);
    NoLengthZero(lens[..]);
    var table := new Entry[852](_ => Entry(0, 0, 0));
    assert lens[..lens.Length] == lens[..];
    var ret, root;
    ret, used, root := MakeTable(kind, lens, lens.Length, table, bits, work);
    ok := ret == 0;
    c := Code([], 0);
    AcceptedIs(kind, ls, used);
    if ret != -1 && AnyCode(ls) { IsSized(ls, bits, root, used); }
    if ok {
      UsedFits(kind, ls, table[..], used, root);
      FilledIs(kind, ls, table[..], used, root);
      Usable(kind, ls, table[..], used, root);
      c := Code(table[..used], root);
    }
  }

  lemma UsedFits(kind: Kind, ls: seq<nat>, t: seq<Entry>, used: nat, root: nat)
    requires |t| == 852 && (!AnyCode(ls) ==> root == 1 && used == 2) && (AnyCode(ls) ==> Decoder(t, ls, kind, root, used))
    ensures used <= 852 && root <= 15
  {
    hide AnyCode, Begins, LooksUp, IsVisited;
  }

  /** What MakeTable leaves when it succeeds. */
  ghost predicate Filled(kind: Kind, ls: seq<nat>, t: seq<Entry>, used: nat, root: nat) {
    && |t| == 852 && !Rejected(ls, kind) && Count(ls, 0) == 0 && CountBelow(ls, 1) == 0
    && (if AnyCode(ls) then Decoder(t, ls, kind, root, used) else root == 1 && used == 2 && t[0] == t[1] == Entry(64, 1, 0))
    && (AnyCode(ls) && !Complete(ls) ==> root == 1 && used == 2 && t[1] == Entry(64, 1, 0))
  }

  lemma FilledIs(kind: Kind, ls: seq<nat>, t: seq<Entry>, used: nat, root: nat)
    ensures Filled(kind, ls, t, used, root) <==>
              && |t| == 852 && !Rejected(ls, kind) && Count(ls, 0) == 0 && CountBelow(ls, 1) == 0
              && (if AnyCode(ls) then Decoder(t, ls, kind, root, used) else root == 1 && used == 2 && t[0] == t[1] == Entry(64, 1, 0))
              && (AnyCode(ls) && !Complete(ls) ==> root == 1 && used == 2 && t[1] == Entry(64, 1, 0))
  {
    hide Decoder, Rejected, AnyCode, Complete, Count, CountBelow;
  }

  lemma Usable(kind: Kind, ls: seq<nat>, t: seq<Entry>, used: nat, root: nat)
    requires Filled(kind, ls, t, used, root) && used <= |t|
    ensures Made(Code(t[..used], root), kind, ls)
  {
    hide Rejected, AnyCode, Complete, Count, CountBelow, Begins, LooksUp, IsVisited;
  }
}
