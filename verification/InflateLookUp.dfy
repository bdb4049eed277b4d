/** Looking up the next symbol, bit by bit as inflate does and at once as inflate_fast does (dep/zlib/inflate.c, dep/zlib/inffast.c). */
module InflateLookUp {
  import opened Bits
  import opened LowBits
  import opened InflateEntries
  import opened InflateSpec
  import opened InflateInput

  /** What is found at the places that are looked at. */
  lemma Looked(c: Code, kind: Kind, x: seq<bool>)
    requires CodeOk(c, kind) && |x| == 15
    ensures LowValue(x[..c.root]) < |c.t|
    ensures var e := c.t[LowValue(x[..c.root])];
      if IsLink(e) then
        && e.bits == c.root && c.root + e.op <= 15 && e.val + LowValue(x[c.root..c.root + e.op]) < |c.t|
        && var f := c.t[e.val + LowValue(x[c.root..c.root + e.op])];
           !IsLink(f) && LookAt(c, x) == (f.(bits := 0), c.root + f.bits)
      else LookAt(c, x) == (e.(bits := 0), e.bits)
    ensures 1 <= LookAt(c, x).1 <= 15 && IsAction(kind, LookAt(c, x).0)
  {
    hide CodeOk, LowValue, IsAction;
    SoundIs(c, kind, x);
  }

  lemma NextIs(c: Code, s: seq<bool>)
    ensures var (e, n) := LookAt(c, Pad(s));
      NextEntry(c, s) == if 1 <= n <= |s| then Found(e, s[n..]) else Short
  {
  }

  /** The place in a sub-table. */
  lemma SubIndex(s: seq<bool>, root: nat, n: nat)
    requires root + n <= 15
    ensures Shr(Low(LowValue(s), root + n), root) == LowValue(Pad(s)[root..root + n])
  {
    hide LowValue, Low, Shr, Pad;
    PadValue(s, root + n);
    LowValueSplit(Pad(s)[..root + n], root);
    assert Pad(s)[..root + n][root..] == Pad(s)[root..root + n];
  }

  /** Fewer than eight bits are held, or not enough for the next symbol. */
  ghost predicate Tight(i: BitIn, c: Code)
    requires i.Valid()
    reads i
  {
    i.bits < 8 || NextEntry(c, i.Held()).Short?
  }

  /** Before the last byte was pulled, there were not enough bits. */
  ghost predicate Pulled(c: Code, u: seq<bool>, bits: nat) {
    8 <= bits ==> bits <= |u| && NextEntry(c, u[..bits - 8]).Short?
  }

  lemma TightPulled(c: Code, kind: Kind, u: seq<bool>, bits: nat)
    requires CodeOk(c, kind) && bits <= |u| && (bits < 8 || NextEntry(c, u[..bits]).Short?)
    ensures Pulled(c, u, bits)
  {
    hide CodeOk, NextEntry;
    if bits >= 8 {
      assert u[..bits - 8] + u[bits - 8..bits] == u[..bits];
      if NextEntry(c, u[..bits - 8]).Found? {
        EntryStays(c, kind, u[..bits - 8], u[bits - 8..bits]);
      }
    }
  }

  lemma PulledNext(c: Code, u: seq<bool>, bits: nat)
    requires bits + 8 <= |u| && NextEntry(c, u[..bits]).Short?
    ensures Pulled(c, u, bits + 8)
  {
  }

  /** When the bits are enough, fewer than eight of them are left over. */
  lemma FewLeft(c: Code, kind: Kind, u: seq<bool>, bits: nat)
    requires CodeOk(c, kind) && bits <= |u| && Pulled(c, u, bits) && 1 <= LookAt(c, Pad(u[..bits])).1 <= bits
    ensures var (e, n) := LookAt(c, Pad(u[..bits]));
      bits - n < 8 && NextEntry(c, u) == Found(e, u[n..]) && IsAction(kind, e)
  {
    hide CodeOk, LookAt, NextEntry, IsAction;
    var n := LookAt(c, Pad(u[..bits])).1;
    NextIs(c, u[..bits]);
    EntryStays(c, kind, u[..bits], u[bits..]);
    assert u[..bits] + u[bits..] == u && u[..bits][n..] + u[bits..] == u[n..];
    if bits >= 8 {
      assert u[..bits - 8] + u[bits - 8..] == u;
      ShortTakesMore(c, kind, u[..bits - 8], u[bits - 8..]);
    }
  }

  lemma NotYet(c: Code, s: seq<bool>)
    requires LookAt(c, Pad(s)).1 > |s|
    ensures NextEntry(c, s).Short?
  {
    hide LookAt;
  }

  /** The entry of the root table stays when more bits come. */
  lemma RootStays(c: Code, u: seq<bool>, m: nat, n: nat)
    requires c.root <= m <= n <= |u|
    ensures Pad(u[..m])[..c.root] == Pad(u[..n])[..c.root]
  {
  }

  /** The entry of the root table for what is held. */
  ghost predicate AtRoot(c: Code, held: seq<bool>, e: Entry) {
    var r := LowValue(Pad(held)[..c.root]);
    r < |c.t| && e == c.t[r]
  }

  /** The entry of the sub-table that last leads to. */
  ghost predicate AtSub(c: Code, held: seq<bool>, last: Entry, e: Entry) {
    && AtRoot(c, held, last) && IsLink(last) && c.root + last.op <= 15
    && var r := last.val + LowValue(Pad(held)[c.root..c.root + last.op]);
       r < |c.t| && e == c.t[r]
  }

  lemma AtRootMeans(c: Code, kind: Kind, held: seq<bool>, e: Entry)
    requires CodeOk(c, kind) && AtRoot(c, held, e)
    ensures 1 <= LookAt(c, Pad(held)).1 <= 15 && IsAction(kind, LookAt(c, Pad(held)).0) && e.bits <= LookAt(c, Pad(held)).1
    ensures !IsLink(e) ==> LookAt(c, Pad(held)) == (e.(bits := 0), e.bits)
    ensures IsLink(e) ==>
              && c.root + e.op <= 15 && e.bits == c.root
              && e.val + LowValue(Pad(held)[c.root..c.root + e.op]) < |c.t|
  {
    hide CodeOk, LowValue, IsAction, LookAt, Pad;
    Looked(c, kind, Pad(held));
  }

  lemma AtSubMeans(c: Code, kind: Kind, held: seq<bool>, last: Entry, e: Entry)
    requires CodeOk(c, kind) && AtSub(c, held, last, e)
    ensures last.bits == c.root && LookAt(c, Pad(held)) == (e.(bits := 0), c.root + e.bits) && 1 <= c.root + e.bits <= 15
    ensures IsAction(kind, e.(bits := 0)) && !IsLink(e)
  {
    hide CodeOk, LowValue, IsAction, LookAt, Pad;
    Looked(c, kind, Pad(held));
  }

  /** here = code[BITS(root)]. */
  method RootEntry(i: BitIn, c: Code, ghost kind: Kind) returns (here: Entry)
    requires i.Valid() && CodeOk(c, kind)
    ensures AtRoot(c, i.Held(), here)
  {
    hide *;
    Looked(c, kind, Pad(i.Held()));
    here := c.t[i.Bits(c.root)];
    AtRootFrom(c, i.Held(), here);
  }

  lemma AtRootFrom(c: Code, held: seq<bool>, e: Entry)
    requires LowValue(Pad(held)[..c.root]) < |c.t| && e == c.t[LowValue(Pad(held)[..c.root])]
    ensures AtRoot(c, held, e)
  {
    hide LowValue, Pad;
  }

  /** here = code[last.val + (BITS(last.bits + last.op) >> last.bits)]. */
  method SubEntry(i: BitIn, c: Code, last: Entry, ghost kind: Kind) returns (here: Entry)
    requires i.Valid() && CodeOk(c, kind) && AtRoot(c, i.Held(), last) && IsLink(last)
    ensures AtSub(c, i.Held(), last, here)
  {
    hide *;
    AtRootMeans(c, kind, i.Held(), last);
    SubIndex(i.Held(), c.root, last.op);
    InIs(i, c, i.Unread());
    LowHold(i, last.bits + last.op);
    here := c.t[last.val + Shr(i.Bits(last.bits + last.op), last.bits)];
    AtSubFrom(c, i.Held(), last, here);
  }

  lemma LowHold(i: BitIn, n: nat)
    requires i.Valid()
    ensures i.Bits(n) == Low(LowValue(i.Held()), n)
  {
    i.HeldValue();
  }

  lemma AtSubFrom(c: Code, held: seq<bool>, last: Entry, e: Entry)
    requires AtRoot(c, held, last) && IsLink(last) && c.root + last.op <= 15
    requires last.val + LowValue(Pad(held)[c.root..c.root + last.op]) < |c.t|
    requires e == c.t[last.val + LowValue(Pad(held)[c.root..c.root + last.op])]
    ensures AtSub(c, held, last, e)
  {
    hide LowValue, Pad, AtRoot;
  }

  lemma AtRootStays(c: Code, u: seq<bool>, m: nat, n: nat, e: Entry)
    requires c.root <= m <= n <= |u| && AtRoot(c, u[..m], e)
    ensures AtRoot(c, u[..n], e)
  {
    hide LowValue, Pad;
    RootStays(c, u, m, n);
  }

  /** Pulling bytes until the entry of the root table fits what is held. */
  method RootSlow(i: BitIn, c: Code, ghost kind: Kind, ghost u: seq<bool>) returns (ok: bool, here: Entry)
    requires i.Valid() && CodeOk(c, kind) && u == i.Unread() && i.bits <= |u| && Pulled(c, u, i.bits)
    modifies i
    ensures i.Valid() && i.input == old(i.input) && i.before == old(i.before) && i.next >= old(i.next) && i.Unread() == u
    ensures ok ==> here.bits <= i.bits <= |u| && Pulled(c, u, i.bits) && AtRoot(c, u[..i.bits], here)
    ensures !ok ==> i.next == |i.input| && NextEntry(c, u).Short? && i.Held() == u
  {
    hide *;
    InIs(i, c, u);
    here := RootEntry(i, c, kind);
    while here.bits > i.bits
      invariant i.Valid() && i.input == old(i.input) && i.before == old(i.before) && i.next >= old(i.next) && i.Unread() == u
      invariant i.bits <= |u| && Pulled(c, u, i.bits) && AtRoot(c, u[..i.bits], here)
      decreases |i.input| - i.next
    {
      InIs(i, c, u);
      AtRootMeans(c, kind, u[..i.bits], here);
      NotYet(c, u[..i.bits]);
      if i.next == |i.input| { assert u[..i.bits] == u; return false, here; }
      PulledNext(c, u, i.bits);
      i.PullByte();
      InIs(i, c, u);
      here := RootEntry(i, c, kind);
    }
    ok := true;
  }

  /** Pulling bytes until the entry of the sub-table fits as well. */
  method SubSlow(i: BitIn, c: Code, last: Entry, ghost kind: Kind, ghost u: seq<bool>) returns (ok: bool, here: Entry)
    requires i.Valid() && CodeOk(c, kind) && u == i.Unread() && i.bits <= |u| && Pulled(c, u, i.bits)
    requires AtRoot(c, u[..i.bits], last) && IsLink(last) && last.bits <= i.bits
    modifies i
    ensures i.Valid() && i.input == old(i.input) && i.before == old(i.before) && i.next >= old(i.next) && i.Unread() == u
    ensures ok ==> last.bits + here.bits <= i.bits <= |u| && Pulled(c, u, i.bits) && AtSub(c, u[..i.bits], last, here)
    ensures !ok ==> i.next == |i.input| && NextEntry(c, u).Short? && i.Held() == u
  {
    hide *;
    InIs(i, c, u);
    AtRootMeans(c, kind, u[..i.bits], last);
    here := SubEntry(i, c, last, kind);
    while last.bits + here.bits > i.bits
      invariant i.Valid() && i.input == old(i.input) && i.before == old(i.before) && i.next >= old(i.next) && i.Unread() == u
      invariant last.bits <= i.bits <= |u| && Pulled(c, u, i.bits) && AtRoot(c, u[..i.bits], last) && AtSub(c, u[..i.bits], last, here)
      decreases |i.input| - i.next
    {
      InIs(i, c, u);
      AtSubMeans(c, kind, u[..i.bits], last, here);
      NotYet(c, u[..i.bits]);
      if i.next == |i.input| { assert u[..i.bits] == u; return false, here; }
      PulledNext(c, u, i.bits);
      ghost var b := i.bits;
      i.PullByte();
      InIs(i, c, u);
      AtRootStays(c, u, b, i.bits, last);
      here := SubEntry(i, c, last, kind);
    }
    ok := true;
  }

  /** The loops of LEN and DIST that pull just enough bytes to decode the next code. */
  method NextSlow(i: BitIn, c: Code, ghost kind: Kind) returns (ok: bool, e: Entry)
    requires i.Valid() && CodeOk(c, kind) && Tight(i, c)
    modifies i
    ensures i.Valid() && i.input == old(i.input) && i.before == old(i.before) && i.next >= old(i.next)
    ensures ok ==> NextEntry(c, old(i.Unread())) == Found(e, i.Unread()) && IsAction(kind, e) && i.bits < 8
    ensures !ok ==> i.next == |i.input| && i.Unread() == old(i.Unread()) && NextEntry(c, i.Unread()).Short? && i.Held() == i.Unread()
  {
    hide *;
    ghost var u := i.Unread();
    InIs(i, c, u);
    TightPulled(c, kind, u, i.bits);
    var here;
    ok, here := RootSlow(i, c, kind, u);
    if !ok { return false, here; }
    AtRootMeans(c, kind, u[..i.bits], here);
    if IsLink(here) {
      var last := here;
      ok, here := SubSlow(i, c, last, kind, u);
      if !ok { return false, here; }
      AtSubMeans(c, kind, u[..i.bits], last, here);
      FewLeft(c, kind, u, i.bits);
      i.DropBits(last.bits);
    } else {
      FewLeft(c, kind, u, i.bits);
    }
    i.DropBits(here.bits);
    e := here.(bits := 0);
  }

  /** Enough bits are held for any code. */
  lemma Plenty(c: Code, kind: Kind, u: seq<bool>, bits: nat)
    requires CodeOk(c, kind) && 15 <= bits <= |u|
    ensures var (e, n) := LookAt(c, Pad(u[..bits]));
      1 <= n <= 15 && NextEntry(c, u) == Found(e, u[n..]) && IsAction(kind, e)
  {
    hide CodeOk, LookAt, NextEntry, IsAction;
    SoundIs(c, kind, Pad(u[..bits]));
    var n := LookAt(c, Pad(u[..bits])).1;
    NextIs(c, u[..bits]);
    EntryStays(c, kind, u[..bits], u[bits..]);
    assert u[..bits] + u[bits..] == u && u[..bits][n..] + u[bits..] == u[n..];
  }

  lemma PadFull(u: seq<bool>, bits: nat)
    requires 15 <= bits <= |u|
    ensures Pad(u[..bits]) == u[..15]
  {
  }

  /** The place in a sub-table once the root bits have been dropped. */
  lemma FastIndex(c: Code, kind: Kind, u: seq<bool>, bits: nat, last: Entry)
    requires CodeOk(c, kind) && 15 <= bits <= |u| && AtRoot(c, u[..bits], last) && IsLink(last)
    ensures last.bits == c.root && c.root + last.op <= 15
    ensures var k := last.val + LowValue(u[c.root..][..last.op]);
            k < |c.t| && AtSub(c, u[..bits], last, c.t[k])
  {
    hide CodeOk, LowValue, Low, Shr, AtRoot, AtSub;
    AtRootMeans(c, kind, u[..bits], last);
    PadFull(u, bits);
    assert u[c.root..][..last.op] == u[..15][c.root..c.root + last.op];
    AtSubFrom(c, u[..bits], last, c.t[last.val + LowValue(u[c.root..][..last.op])]);
  }

  /** Decoding a code at once, when there is enough input (dep/zlib/inffast.c:121-132, 152-163). */
  method NextFast(i: BitIn, c: Code, ghost kind: Kind) returns (here: Entry)
    requires i.Valid() && CodeOk(c, kind) && |i.Unread()| >= 23
    modifies i
    ensures i.Valid() && i.input == old(i.input) && i.before == old(i.before)
    ensures NextEntry(c, old(i.Unread())) == Found(here.(bits := 0), i.Unread()) && IsAction(kind, here.(bits := 0))
    ensures |i.Unread()| >= old(|i.Unread()|) - 15
  {
    hide *;
    ghost var u := i.Unread();
    InIs(i, c, u);
    if i.bits < 15 {
      i.PullByte();
      i.PullByte();
      InIs(i, c, u);
    }
    ghost var bits := i.bits;
    Plenty(c, kind, u, bits);
    here := RootEntry(i, c, kind);
    AtRootMeans(c, kind, u[..bits], here);
    i.DropBits(here.bits);
    if IsLink(here) {
      InIs(i, c, i.Unread());
      FastIndex(c, kind, u, bits, here);
      ghost var last := here;
      here := c.t[here.val + i.Bits(here.op)];
      AtSubMeans(c, kind, u[..bits], last, here);
      i.DropBits(here.bits);
    }
  }

  /** Taking extra bits when there is enough input (dep/zlib/inffast.c:141-150, 166-184). */
  method BitsFast(i: BitIn, n: nat) returns (v: nat)
    requires i.Valid() && n <= 13 && n <= |i.Unread()|
    modifies i
    ensures i.Valid() && i.input == old(i.input) && i.before == old(i.before)
    ensures n <= old(|i.Unread()|) && v == LowValue(old(i.Unread())[..n]) && i.Unread() == old(i.Unread())[n..]
  {
    hide *;
    Counted(i);
    if i.bits < n {
      i.PullByte();
      Counted(i);
      if i.bits < n {
        i.PullByte();
      }
    }
    v := i.Bits(n);
    i.DropBits(n);
  }

  lemma Counted(i: BitIn)
    requires i.Valid()
    ensures i.next <= |i.input| && |i.Unread()| == i.bits + 8 * (|i.input| - i.next)
  {
    i.HeldValue();
  }

  lemma InIs(i: BitIn, c: Code, u: seq<bool>)
    requires i.Valid() && u == i.Unread()
    ensures |u| == i.bits + 8 * (|i.input| - i.next) && i.next <= |i.input| && i.Held() == u[..i.bits] && i.hold == LowValue(u[..i.bits])
    ensures Tight(i, c) <==> i.bits < 8 || NextEntry(c, u[..i.bits]).Short?
  {
    hide NextEntry, LowValue, Pad;
    i.HeldValue();
  }
}
