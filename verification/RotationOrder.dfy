/**
 The rotations of a block in their order, as numbers: comparing two rotations is comparing what follows their
 common characters. This is what the comparisons and the pointer scan of mainSort rest on.
 */
module RotationOrder {
  import opened Bits
  import opened Rotations
  import opened RotationPrefixes

  /** The position after x in a block of n bytes, cyclically. */
  function Next(n: nat, x: nat): (r: nat)
    requires x < n
    ensures r < n && Before(r, n) == x
  {
    if x + 1 == n then 0 else x + 1
  }

  lemma NextBefore(n: nat, x: nat)
    requires x < n
    ensures Next(n, Before(x, n)) == x
  {
  }

  /** The rotations smaller than rotation x. */
  ghost function Smaller(block: seq<byte>, x: nat): set<nat>
    requires x < |block|
  {
    set y: nat | y < |block| && !LexLe(Rot(block, x), Rot(block, y))
  }

  /** How many rotations are smaller than each rotation. */
  ghost function Order(block: seq<byte>): (e: seq<nat>)
    ensures |e| == |block|
  {
    seq(|block|, x requires 0 <= x < |block| => |Smaller(block, x)|)
  }

  /** Comparing the numbers is comparing the rotations. */
  lemma OrderIsLex(block: seq<byte>, x: nat, y: nat)
    requires x < |block| && y < |block|
    ensures Order(block)[x] <= Order(block)[y] <==> LexLe(Rot(block, x), Rot(block, y))
  {
    hide Rot, LexLe;
    if LexLe(Rot(block, x), Rot(block, y)) {
      SmallerGrows(block, x, y);
    } else {
      LexTotal(Rot(block, x), Rot(block, y));
      SmallerGrows(block, y, x);
      LexReflexive(Rot(block, y));
      assert y in Smaller(block, x) && y !in Smaller(block, y);
      FewerStrictly(Smaller(block, y), Smaller(block, x), y);
    }
  }

  lemma SmallerGrows(block: seq<byte>, x: nat, y: nat)
    requires x < |block| && y < |block| && LexLe(Rot(block, x), Rot(block, y))
    ensures Smaller(block, x) <= Smaller(block, y) && |Smaller(block, x)| <= |Smaller(block, y)|
  {
    hide Rot, LexLe;
    forall z | z in Smaller(block, x)
      ensures z in Smaller(block, y)
    {
      if LexLe(Rot(block, y), Rot(block, z)) {
        LexTransitive(Rot(block, x), Rot(block, y), Rot(block, z));
      }
    }
    Fewer(Smaller(block, x), Smaller(block, y));
  }

  lemma Fewer(a: set<nat>, b: set<nat>)
    requires a <= b
    ensures |a| <= |b|
  {
    assert b == a + (b - a);
  }

  lemma FewerStrictly(a: set<nat>, b: set<nat>, y: nat)
    requires a <= b && y in b && y !in a
    ensures |a| < |b|
  {
    Fewer(a + {y}, b);
  }

  /** One character further on: the first characters decide, or what follows them does. */
  lemma OrderNext(block: seq<byte>, x: nat, y: nat)
    requires x < |block| && y < |block|
    ensures var e, n := Order(block), |block|;
            && (block[x] < block[y] ==> e[x] < e[y])
            && (block[x] == block[y] ==> (e[x] <= e[y] <==> e[Next(n, x)] <= e[Next(n, y)]))
  {
    var n := |block|;
    var p, q := Next(n, x), Next(n, y);
    RotBefore(block, p);
    RotBefore(block, q);
    OrderIsLex(block, x, y);
    OrderIsLex(block, y, x);
    OrderIsLex(block, p, q);
    hide Order, Next;
    var s, t := Rot(block, p)[..n - 1], Rot(block, q)[..n - 1];
    assert Rot(block, x) == [block[x]] + s && Rot(block, y) == [block[y]] + t;
    if block[x] == block[y] {
      var c := [block[x]];
      assert Rot(block, p) == s + c && Rot(block, q) == t + c;
      hide Rot, LexLe;
      LexReflexive(c);
      LexConcat(c, c, s, t);
      LexConcat(s, t, c, c);
      LexReflexive(s);
    }
  }

  lemma {:induction false} AheadNext(n: nat, i: nat, k: nat)
    requires i < n
    ensures Ahead(n, i, k + 1) == Next(n, Ahead(n, i, k))
    decreases k
  {
    if k > 0 {
      AheadNext(n, Next(n, i), k - 1);
    }
  }

  lemma PreNext(block: seq<byte>, i: nat, k: nat)
    requires i < |block|
    ensures Pre(block, i, k + 1) == Pre(block, i, k) + [block[Ahead(|block|, i, k)]]
  {
    PreConcat(block, i, k, 1);
    PreStraight(block, Ahead(|block|, i, k), 1);
  }

  /** Rotations that agree on k characters are in the order of what follows. */
  lemma {:induction false} OrderAhead(block: seq<byte>, x: nat, y: nat, k: nat)
    requires x < |block| && y < |block| && Pre(block, x, k) == Pre(block, y, k)
    ensures var e, n := Order(block), |block|; e[x] <= e[y] <==> e[Ahead(n, x, k)] <= e[Ahead(n, y, k)]
    decreases k
  {
    hide Order, Next;
    if k > 0 {
      var n := |block|;
      PreNext(block, x, k - 1);
      PreNext(block, y, k - 1);
      LastSame(Pre(block, x, k - 1), Pre(block, y, k - 1), block[Ahead(n, x, k - 1)], block[Ahead(n, y, k - 1)]);
      OrderAhead(block, x, y, k - 1);
      AheadNext(n, x, k - 1);
      AheadNext(n, y, k - 1);
      OrderNext(block, Ahead(n, x, k - 1), Ahead(n, y, k - 1));
    }
  }

  lemma LastSame(s: seq<byte>, t: seq<byte>, a: byte, b: byte)
    requires |s| == |t| && s + [a] == t + [b]
    ensures s == t && a == b
  {
    assert (s + [a])[..|s|] == s && (t + [b])[..|t|] == t;
    assert (s + [a])[|s|] == a && (t + [b])[|t|] == b;
  }

  /** Rotations that agree on as many characters as there are, are equal. */
  lemma AllSame(block: seq<byte>, x: nat, y: nat, k: nat)
    requires x < |block| && y < |block| && k >= |block| && Pre(block, x, k) == Pre(block, y, k)
    ensures Order(block)[x] == Order(block)[y]
  {
    hide Order, Rot, Pre, LexLe;
    var n := |block|;
    PreConcat(block, x, n, k - n);
    PreConcat(block, y, n, k - n);
    assert n + (k - n) == k;
    assert Pre(block, x, k)[..n] == Pre(block, x, n) && Pre(block, y, k)[..n] == Pre(block, y, n);
    PreIsRot(block, x);
    PreIsRot(block, y);
    OrderIsLex(block, x, y);
    OrderIsLex(block, y, x);
    LexReflexive(Rot(block, x));
  }

  /** A list of positions sorted by Order is a sorted list of rotations. */
  lemma SortedIsOrder(block: seq<byte>, f: seq<nat>)
    requires IsPerm(f, |block|)
    requires forall i, j :: 0 <= i <= j < |block| ==> Order(block)[f[i]] <= Order(block)[f[j]]
    ensures IsOrder(block, f)
  {
    hide Order, Rot, LexLe;
    forall i, j | 0 <= i <= j < |block|
      ensures LexLe(Rot(block, f[i]), Rot(block, f[j]))
    {
      OrderIsLex(block, f[i], f[j]);
    }
  }
}
