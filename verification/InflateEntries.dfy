/**
 The decoding tables of inflate_table (dep/zlib/inftrees.c): a root table and sub-tables behind it, what looking up a bit
 string in them means, and how entering one code keeps what is already right.
 */
module InflateEntries {
  import opened Bits
  import opened CountingOrder
  import opened HuffmanCode
  import opened HuffmanDecode
  import opened LowBits
  import opened InflateCode

  datatype Kind = CODES | LENS | DISTS

  datatype Entry = Entry(op: nat, bits: nat, val: nat)

  const LBASE: seq<nat> := [3, 4, 5, 6, 7, 8, 9, 10, 11, 13, 15, 17, 19, 23, 27, 31,
                            35, 43, 51, 59, 67, 83, 99, 115, 131, 163, 195, 227, 258, 0, 0]
  const LEXT: seq<nat> := [16, 16, 16, 16, 16, 16, 16, 16, 17, 17, 17, 17, 18, 18, 18, 18,
                           19, 19, 19, 19, 20, 20, 20, 20, 21, 21, 21, 21, 16, 78, 68]
  const DBASE: seq<nat> := [1, 2, 3, 4, 5, 7, 9, 13, 17, 25, 33, 49, 65, 97, 129, 193,
                            257, 385, 513, 769, 1025, 1537, 2049, 3073, 4097, 6145,
                            8193, 12289, 16385, 24577, 0, 0]
  const DEXT: seq<nat> := [16, 16, 16, 16, 17, 17, 18, 18, 19, 19, 20, 20, 21, 21, 22, 22,
                           23, 23, 24, 24, 25, 25, 26, 26, 27, 27,
                           28, 28, 29, 29, 64, 64]

  /** How many symbols each kind of code can have. */
  function Symbols(kind: Kind): nat {
    match kind
    case CODES => 19
    case LENS => 288
    case DISTS => 32
  }

  /** The entry of a symbol, of whose code the given number of bits belong to this table. */
  function Leaf(kind: Kind, sym: nat, bits: nat): (e: Entry)
    requires sym < Symbols(kind)
    ensures !IsLink(e) && e.bits == bits
  {
    match kind
    case CODES => Entry(0, bits, sym)
    case LENS => if sym < 256 then Entry(0, bits, sym) else if sym > 256 then Entry(LEXT[sym - 257], bits, LBASE[sym - 257])
                 else Entry(96, bits, 0)
    case DISTS => Entry(DEXT[sym], bits, DBASE[sym])
  }

  /** An entry that points to a sub-table: op is the number of its index bits. */
  predicate IsLink(e: Entry) {
    1 <= e.op < 16
  }

  /** One look-up: the entry, and how many bits belong to the code. Places outside the table give the invalid code. */
  function LookUpIn(t: seq<Entry>, root: nat, x: seq<bool>): (Entry, nat)
    requires root <= |x|
  {
    var r := LowValue(x[..root]);
    if r >= |t| then (Entry(64, 0, 0), 0)
    else if !IsLink(t[r]) then (t[r], t[r].bits)
    else if t[r].bits + t[r].op > |x| || t[r].val + LowValue(x[t[r].bits..t[r].bits + t[r].op]) >= |t| then (Entry(64, 0, 0), 0)
    else
      var e := t[t[r].val + LowValue(x[t[r].bits..t[r].bits + t[r].op])];
      (e, t[r].bits + e.bits)
  }

  /** The sub-table that is being filled: the root bits that lead to it, its index bits, and its place. */
  datatype Sub = NoSub | Sub(u: seq<bool>, curr: nat, next: nat)

  /** Where the tables end that the codes beginning with these root bits may be in. */
  ghost function Limit(root: nat, sub: Sub, u: seq<bool>): nat {
    match sub
    case NoSub => Pow2(root)
    case Sub(su, curr, next) => if u == su then next + Pow2(curr) else next
  }

  ghost predicate IsLeaf(t: seq<Entry>, j: nat, kind: Kind, i: nat, bits: int) {
    j < |t| && i < Symbols(kind) && bits >= 0 && t[j] == Leaf(kind, i, bits)
  }

  /** Looking up x leads to symbol i. */
  ghost predicate Leads(t: seq<Entry>, ls: seq<nat>, kind: Kind, root: nat, sub: Sub, x: seq<bool>, i: nat) {
    && root <= |x| == 15 && i < |ls| && LowValue(x[..root]) < Pow2(root) <= |t|
    && var r := LowValue(x[..root]);
       if ls[i] <= root then IsLeaf(t, r, kind, i, ls[i])
       else
         && IsLink(t[r]) && t[r].bits == root && ls[i] <= root + t[r].op <= 15
         && Pow2(root) <= t[r].val && t[r].val + Pow2(t[r].op) <= Limit(root, sub, x[..root]) <= |t|
         && IsLeaf(t, t[r].val + LowValue(x[root..root + t[r].op]), kind, i, ls[i] - root)
  }

  lemma LeadsParts(t: seq<Entry>, ls: seq<nat>, kind: Kind, root: nat, sub: Sub, x: seq<bool>, i: nat)
    requires Leads(t, ls, kind, root, sub, x, i)
    ensures root <= |x| == 15 && i < |ls| && LowValue(x[..root]) < Pow2(root) <= |t|
    ensures ls[i] <= root ==> IsLeaf(t, LowValue(x[..root]), kind, i, ls[i])
    ensures ls[i] > root ==>
              var r := LowValue(x[..root]);
              && IsLink(t[r]) && t[r].bits == root && ls[i] <= root + t[r].op <= 15
              && Pow2(root) <= t[r].val && t[r].val + Pow2(t[r].op) <= Limit(root, sub, x[..root]) <= |t|
              && IsLeaf(t, t[r].val + LowValue(x[root..root + t[r].op]), kind, i, ls[i] - root)
  {
    hide LowValue, Pow2, Limit, IsLeaf;
  }

  lemma LeadsFrom(t: seq<Entry>, ls: seq<nat>, kind: Kind, root: nat, sub: Sub, x: seq<bool>, i: nat)
    requires root <= |x| == 15 && i < |ls| && LowValue(x[..root]) < Pow2(root) <= |t|
    requires ls[i] <= root ==> IsLeaf(t, LowValue(x[..root]), kind, i, ls[i])
    requires ls[i] > root ==>
               var r := LowValue(x[..root]);
               && IsLink(t[r]) && t[r].bits == root && ls[i] <= root + t[r].op <= 15
               && Pow2(root) <= t[r].val && t[r].val + Pow2(t[r].op) <= Limit(root, sub, x[..root]) <= |t|
               && IsLeaf(t, t[r].val + LowValue(x[root..root + t[r].op]), kind, i, ls[i] - root)
    ensures Leads(t, ls, kind, root, sub, x, i)
  {
    hide LowValue, Pow2, Limit, IsLeaf;
  }

  lemma LimitIs(root: nat, sub: Sub, u: seq<bool>)
    ensures sub.NoSub? ==> Limit(root, sub, u) == Pow2(root)
    ensures sub.Sub? ==> Limit(root, sub, u) == if u == sub.u then sub.next + Pow2(sub.curr) else sub.next
  {
    hide Pow2;
  }

  lemma IsLeafIs(t: seq<Entry>, j: nat, kind: Kind, i: nat, bits: int)
    ensures IsLeaf(t, j, kind, i, bits) <==> j < |t| && i < Symbols(kind) && bits >= 0 && t[j] == Leaf(kind, i, bits)
  {
    hide Leaf;
  }

  /** Everything that lies before code c of length len is looked up rightly. */
  ghost predicate Good(t: seq<Entry>, ls: seq<nat>, kind: Kind, root: nat, sub: Sub, len: nat, c: nat) {
    && len <= 15
    && forall x, i :: Begins(ls, x, i) && Value(x[..len]) < c ==> Leads(t, ls, kind, root, sub, x, i)
  }

  /** t is t0 with e written wherever the first bits of a curr-bit index are v. */
  ghost predicate Written(t0: seq<Entry>, t: seq<Entry>, base: nat, curr: nat, v: seq<bool>, e: Entry) {
    && |t| == |t0| && |v| <= curr && base + Pow2(curr) <= |t|
    && (forall y :: |y| == curr ==>
          base + LowValue(y) < |t| && t[base + LowValue(y)] == if y[..|v|] == v then e else t0[base + LowValue(y)])
    && forall j :: 0 <= j < |t| && (j < base || base + Pow2(curr) <= j) ==> t[j] == t0[j]
  }

  lemma WrittenInside(t0: seq<Entry>, t: seq<Entry>, base: nat, curr: nat, v: seq<bool>, e: Entry, y: seq<bool>)
    requires Written(t0, t, base, curr, v, e) && |y| == curr
    ensures |t| == |t0| && |v| <= |y| && base + LowValue(y) < |t|
    ensures t[base + LowValue(y)] == if y[..|v|] == v then e else t0[base + LowValue(y)]
  {
    hide LowValue, Pow2;
  }

  lemma WrittenOutside(t0: seq<Entry>, t: seq<Entry>, base: nat, curr: nat, v: seq<bool>, e: Entry, j: nat)
    requires Written(t0, t, base, curr, v, e) && j < |t0| && (j < base || base + Pow2(curr) <= j)
    ensures |t| == |t0| && t[j] == t0[j]
  {
    hide LowValue, Pow2;
  }

  /** The code word that is being entered, and the strings that begin with it. */
  lemma CodeWord(ls: seq<nat>, x: seq<bool>, i: nat, i0: nat, len: nat, c: nat)
    requires Begins(ls, x, i) && i0 < |ls| && ls[i0] == len <= 15 && CodeOf(ls, i0) == c < Pow2(len)
    ensures x[..len] == BitsOf(len, c) <==> Value(x[..len]) == c
    ensures Value(x[..len]) == c ==> i == i0
  {
    BitsOfValue(x[..len]);
    ValueOfBits(len, c);
    if Value(x[..len]) == c {
      OneSymbolOnly(ls, x, i, i0);
    }
  }

  /** A code no longer than root bits is entered in the root table. */
  lemma RootStep(t0: seq<Entry>, t: seq<Entry>, ls: seq<nat>, kind: Kind, root: nat, len: nat, c: nat, i0: nat)
    requires Good(t0, ls, kind, root, NoSub, len, c) && 1 <= len <= root <= 15 && |ls| <= Symbols(kind)
    requires i0 < |ls| && ls[i0] == len && CodeOf(ls, i0) == c < Pow2(len) && c < FirstCode(ls, len) + Count(ls, len)
    requires Written(t0, t, 0, root, BitsOf(len, c), Leaf(kind, i0, len))
    ensures Good(t, ls, kind, root, NoSub, len, c + 1)
  {
    hide LowValue, Pow2, Value, Written, Leads, Leaf;
    forall x, i | Begins(ls, x, i) && Value(x[..len]) < c + 1
      ensures Leads(t, ls, kind, root, NoSub, x, i)
    {
      CodeWord(ls, x, i, i0, len, c);
      if Value(x[..len]) < c {
        CoveredIsShorter(ls, x, i, len, c);
        assert Leads(t0, ls, kind, root, NoSub, x, i);
      }
      hide *;
      RootLeads(t0, t, ls, kind, root, len, BitsOf(len, c), i0, i, x);
    }
  }

  lemma RootLeads(t0: seq<Entry>, t: seq<Entry>, ls: seq<nat>, kind: Kind, root: nat, len: nat, w: seq<bool>, i0: nat, i: nat,
                  x: seq<bool>)
    requires |x| == 15 && 1 <= len == |w| <= root <= 15 && i0 < |ls| <= Symbols(kind) && i < |ls| && ls[i0] == len
    requires Written(t0, t, 0, root, w, Leaf(kind, i0, len))
    requires x[..len] == w ==> i == i0
    requires x[..len] != w ==> ls[i] <= root && Leads(t0, ls, kind, root, NoSub, x, i)
    ensures Leads(t, ls, kind, root, NoSub, x, i)
  {
    hide *;
    var r := LowValue(x[..root]);
    WrittenInside(t0, t, 0, root, w, Leaf(kind, i0, len), x[..root]);
    WrittenSize(t0, t, 0, root, w, Leaf(kind, i0, len));
    assert x[..root][..len] == x[..len];
    if x[..len] != w {
      LeadsParts(t0, ls, kind, root, NoSub, x, i);
      IsLeafIs(t0, r, kind, i, ls[i]);
    }
    IsLeafIs(t, r, kind, i, ls[i]);
    LeadsFrom(t, ls, kind, root, NoSub, x, i);
  }

  lemma WrittenSize(t0: seq<Entry>, t: seq<Entry>, base: nat, curr: nat, v: seq<bool>, e: Entry)
    requires Written(t0, t, base, curr, v, e)
    ensures |t| == |t0| && |v| <= curr && base + Pow2(curr) <= |t|
  {
    hide LowValue, Pow2;
  }

  /** A longer code is entered in the sub-table that its root bits lead to. */
  lemma SubStep(t0: seq<Entry>, t: seq<Entry>, ls: seq<nat>, kind: Kind, root: nat, sub: Sub, len: nat, c: nat, i0: nat)
    requires Good(t0, ls, kind, root, sub, len, c) && 1 <= root < len <= 15 && |ls| <= Symbols(kind)
    requires i0 < |ls| && ls[i0] == len && CodeOf(ls, i0) == c < Pow2(len) && c < FirstCode(ls, len) + Count(ls, len)
    requires InSub(t0, root, sub) && len <= root + sub.curr <= 15 && BitsOf(len, c)[..root] == sub.u
    requires Written(t0, t, sub.next, sub.curr, BitsOf(len, c)[root..], Leaf(kind, i0, len - root))
    ensures Good(t, ls, kind, root, sub, len, c + 1) && InSub(t, root, sub)
  {
    hide LowValue, Pow2, Value, Written, Leads, Leaf;
    var w, e := BitsOf(len, c), Leaf(kind, i0, len - root);
    WrittenSize(t0, t, sub.next, sub.curr, w[root..], e);
    WrittenOutside(t0, t, sub.next, sub.curr, w[root..], e, LowValue(sub.u));
    forall x, i | Begins(ls, x, i) && Value(x[..len]) < c + 1
      ensures Leads(t, ls, kind, root, sub, x, i)
    {
      SubStepOne(t0, t, ls, kind, root, sub, len, c, i0, x, i);
    }
  }

  /** The root entry that leads to the sub-table. */
  ghost predicate InSub(t: seq<Entry>, root: nat, sub: Sub) {
    && sub.Sub? && |sub.u| == root && 1 <= sub.curr && root + sub.curr <= 15 && Pow2(root) <= sub.next
    && sub.next + Pow2(sub.curr) <= |t| && LowValue(sub.u) < |t| && t[LowValue(sub.u)] == Entry(sub.curr, root, sub.next)
  }

  lemma SubStepOne(t0: seq<Entry>, t: seq<Entry>, ls: seq<nat>, kind: Kind, root: nat, sub: Sub, len: nat, c: nat, i0: nat,
                   x: seq<bool>, i: nat)
    requires Good(t0, ls, kind, root, sub, len, c) && 1 <= root < len <= 15 && |ls| <= Symbols(kind)
    requires i0 < |ls| && ls[i0] == len && CodeOf(ls, i0) == c < Pow2(len) && c < FirstCode(ls, len) + Count(ls, len)
    requires InSub(t0, root, sub) && len <= root + sub.curr <= 15 && BitsOf(len, c)[..root] == sub.u
    requires Written(t0, t, sub.next, sub.curr, BitsOf(len, c)[root..], Leaf(kind, i0, len - root))
    requires Begins(ls, x, i) && Value(x[..len]) < c + 1
    ensures Leads(t, ls, kind, root, sub, x, i)
  {
    hide *;
    var w, e := BitsOf(len, c), Leaf(kind, i0, len - root);
    CodeWord(ls, x, i, i0, len, c);
    BeginsIn(ls, x, i);
    SubParts(t0, root, sub);
    assert w == w[..root] + w[root..] && x[..len] == x[..root] + x[root..len];
    if Value(x[..len]) == c {
      NewLeads(t0, t, ls, kind, root, sub, w[root..], i, x);
    } else {
      GoodLeads(t0, ls, kind, root, sub, len, c, x, i);
      KeptLeads(t0, t, ls, kind, root, sub, w[root..], e, i, x);
    }
  }

  lemma BeginsIn(ls: seq<nat>, x: seq<bool>, i: nat)
    requires Begins(ls, x, i)
    ensures |x| == 15 && i < |ls|
  {
  }

  lemma GoodLeads(t: seq<Entry>, ls: seq<nat>, kind: Kind, root: nat, sub: Sub, len: nat, c: nat, x: seq<bool>, i: nat)
    requires Good(t, ls, kind, root, sub, len, c) && Begins(ls, x, i) && Value(x[..len]) < c
    ensures Leads(t, ls, kind, root, sub, x, i)
  {
    hide Leads, Value;
  }

  lemma SubParts(t: seq<Entry>, root: nat, sub: Sub)
    requires InSub(t, root, sub)
    ensures sub.Sub? && |sub.u| == root && 1 <= sub.curr && root + sub.curr <= 15 && Pow2(root) <= sub.next
    ensures sub.next + Pow2(sub.curr) <= |t| && LowValue(sub.u) < |t| && t[LowValue(sub.u)] == Entry(sub.curr, root, sub.next)
  {
    hide LowValue, Pow2;
  }

  lemma LinkIs(curr: nat, bits: nat, val: nat)
    requires 1 <= curr < 16
    ensures IsLink(Entry(curr, bits, val))
  {
  }

  lemma NewLeads(t0: seq<Entry>, t: seq<Entry>, ls: seq<nat>, kind: Kind, root: nat, sub: Sub, v: seq<bool>, i: nat, x: seq<bool>)
    requires InSub(t0, root, sub) && i < |ls| && ls[i] == root + |v| && i < Symbols(kind) && 1 <= |v| && |x| == 15
    requires x[..root] == sub.u && root + |v| <= 15 && x[root..root + |v|] == v
    requires sub.Sub? && Written(t0, t, sub.next, sub.curr, v, Leaf(kind, i, |v|))
    ensures Leads(t, ls, kind, root, sub, x, i)
  {
    hide *;
    SubParts(t0, root, sub);
    var e := Leaf(kind, i, |v|);
    WrittenSize(t0, t, sub.next, sub.curr, v, e);
    WrittenOutside(t0, t, sub.next, sub.curr, v, e, LowValue(sub.u));
    var y := x[root..root + sub.curr];
    assert y[..|v|] == x[root..root + |v|];
    WrittenInside(t0, t, sub.next, sub.curr, v, e, y);
    LimitIs(root, sub, sub.u);
    LinkIs(sub.curr, root, sub.next);
    IsLeafIs(t, sub.next + LowValue(y), kind, i, |v|);
    LeadsFrom(t, ls, kind, root, sub, x, i);
  }

  lemma KeptLeads(t0: seq<Entry>, t: seq<Entry>, ls: seq<nat>, kind: Kind, root: nat, sub: Sub, v: seq<bool>, e: Entry,
                  i: nat, x: seq<bool>)
    requires InSub(t0, root, sub) && Leads(t0, ls, kind, root, sub, x, i) && sub.Sub? && Written(t0, t, sub.next, sub.curr, v, e)
    requires root + |v| <= 15 == |x| && (x[..root] == sub.u ==> x[root..root + |v|] != v)
    ensures Leads(t, ls, kind, root, sub, x, i)
  {
    hide *;
    SubParts(t0, root, sub);
    LeadsParts(t0, ls, kind, root, sub, x, i);
    WrittenSize(t0, t, sub.next, sub.curr, v, e);
    var r := LowValue(x[..root]);
    WrittenOutside(t0, t, sub.next, sub.curr, v, e, r);
    if ls[i] > root {
      var y := x[root..root + t0[r].op];
      LimitIs(root, sub, x[..root]);
      if x[..root] == sub.u {
        assert y[..|v|] == x[root..root + |v|];
        WrittenInside(t0, t, sub.next, sub.curr, v, e, y);
      } else {
        WrittenOutside(t0, t, sub.next, sub.curr, v, e, t0[r].val + LowValue(y));
      }
      IsLeafIs(t0, t0[r].val + LowValue(y), kind, i, ls[i] - root);
      IsLeafIs(t, t0[r].val + LowValue(y), kind, i, ls[i] - root);
    } else {
      IsLeafIs(t0, r, kind, i, ls[i]);
      IsLeafIs(t, r, kind, i, ls[i]);
    }
    LeadsFrom(t, ls, kind, root, sub, x, i);
  }

  /** Going on to a longer code length. */
  lemma LengthStep(t: seq<Entry>, ls: seq<nat>, kind: Kind, root: nat, sub: Sub, len: nat, d: nat, c: nat)
    requires Good(t, ls, kind, root, sub, len, c) && len + d <= 15
    ensures Good(t, ls, kind, root, sub, len + d, Shl(c, d))
  {
    hide Leads, Shl;
    forall x, i | Begins(ls, x, i) && Value(x[..len + d]) < Shl(c, d)
      ensures Leads(t, ls, kind, root, sub, x, i)
    {
      CoverageStays(x, len, d, c);
    }
  }

  /** A new sub-table: no string that is looked up already has its root bits. */
  lemma SubTableStep(t: seq<Entry>, ls: seq<nat>, kind: Kind, root: nat, sub: Sub, len: nat, c: nat, u: seq<bool>, curr: nat, next: nat)
    requires Good(t, ls, kind, root, sub, len, c) && 1 <= root == |u| && 1 <= curr && root + curr <= 15 && root <= len
    requires c == Shl(Value(u), len - root)
    requires Pow2(root) <= next && next + Pow2(curr) <= |t| && (sub.Sub? ==> sub.next + Pow2(sub.curr) <= next)
    ensures LowValue(u) < |t| && InSub(t[LowValue(u) := Entry(curr, root, next)], root, Sub(u, curr, next))
    ensures Good(t[LowValue(u) := Entry(curr, root, next)], ls, kind, root, Sub(u, curr, next), len, c)
  {
    hide Leads, Value, Shl, LowValue, Pow2;
    var sub' := Sub(u, curr, next);
    PowersFit(root, curr, |t|, next);
    var t' := t[LowValue(u) := Entry(curr, root, next)];
    forall x, i | Begins(ls, x, i) && Value(x[..len]) < c
      ensures Leads(t', ls, kind, root, sub', x, i)
    {
      BeginsSize(ls, x, i);
      assert Leads(t, ls, kind, root, sub, x, i);
      CoverageStays(x, root, len - root, Value(u));
      OtherLeads(t, ls, kind, root, sub, u, curr, next, x, i);
    }
  }

  lemma PowersFit(root: nat, curr: nat, size: nat, next: nat)
    requires Pow2(root) <= next && next + Pow2(curr) <= size
    ensures Pow2(root) <= size
  {
  }

  lemma BeginsSize(ls: seq<nat>, x: seq<bool>, i: nat)
    requires Begins(ls, x, i)
    ensures |x| == 15 && i < |ls| && ls[i] <= 15
  {
  }

  lemma OtherLeads(t: seq<Entry>, ls: seq<nat>, kind: Kind, root: nat, sub: Sub, u: seq<bool>, curr: nat, next: nat,
                   x: seq<bool>, i: nat)
    requires Leads(t, ls, kind, root, sub, x, i) && |u| == root <= |x| && x[..root] != u && LowValue(u) < |t|
    requires Pow2(root) <= next <= |t| && (sub.Sub? ==> sub.next + Pow2(sub.curr) <= next)
    ensures Leads(t[LowValue(u) := Entry(curr, root, next)], ls, kind, root, Sub(u, curr, next), x, i)
  {
    hide *;
    if LowValue(x[..root]) == LowValue(u) { LowValueApart(x[..root], u); }
    LeadsParts(t, ls, kind, root, sub, x, i);
    LimitIs(root, sub, x[..root]);
    LimitIs(root, Sub(u, curr, next), x[..root]);
    var t' := t[LowValue(u) := Entry(curr, root, next)];
    var r := LowValue(x[..root]);
    if ls[i] > root {
      var j := t[r].val + LowValue(x[root..root + t[r].op]);
      IsLeafIs(t, j, kind, i, ls[i] - root);
      IsLeafIs(t', j, kind, i, ls[i] - root);
    } else {
      IsLeafIs(t, r, kind, i, ls[i]);
      IsLeafIs(t', r, kind, i, ls[i]);
    }
    LeadsFrom(t', ls, kind, root, Sub(u, curr, next), x, i);
  }
}
