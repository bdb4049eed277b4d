/**
 Prefixes of rotations, and the order of a list of rotations by their first h
 characters: the mathematics behind the prefix doubling of fallbackSort.
 */
module RotationPrefixes {
  import opened Bits
  import opened Rotations

  /** The position k steps after i in a block of n bytes, cyclically. */
  function Ahead(n: nat, i: nat, k: nat): (r: nat)
    requires i < n
    ensures r < n
    decreases k
  {
    if k == 0 then i else Ahead(n, if i + 1 == n then 0 else i + 1, k - 1)
  }

  /** The first h characters of rotation i; h may exceed the length of the block. */
  ghost function Pre(block: seq<byte>, i: nat, h: nat): (s: seq<byte>)
    requires i < |block|
    ensures |s| == h
    decreases h
  {
    if h == 0 then [] else [block[i]] + Pre(block, if i + 1 == |block| then 0 else i + 1, h - 1)
  }

  lemma {:induction false} AheadWraps(n: nat, i: nat, k: nat)
    requires i < n && k <= n
    ensures Ahead(n, i, k) == if i + k < n then i + k else i + k - n
    decreases k
  {
    if k > 0 {
      AheadWraps(n, if i + 1 == n then 0 else i + 1, k - 1);
    }
  }

  lemma {:induction false} PreConcat(block: seq<byte>, i: nat, a: nat, b: nat)
    requires i < |block|
    ensures Pre(block, i, a + b) == Pre(block, i, a) + Pre(block, Ahead(|block|, i, a), b)
    decreases a
  {
    if a > 0 {
      PreConcat(block, if i + 1 == |block| then 0 else i + 1, a - 1, b);
    } else {
      assert [] + Pre(block, i, b) == Pre(block, i, b);
    }
  }

  lemma {:induction false} PreStraight(block: seq<byte>, i: nat, h: nat)
    requires i < |block| && i + h <= |block|
    ensures Pre(block, i, h) == block[i..i + h]
    decreases h
  {
    if h > 1 {
      PreStraight(block, i + 1, h - 1);
      assert block[i..i + h] == [block[i]] + block[i + 1..i + h];
    } else if h == 1 {
      assert block[i..i + 1] == [block[i]];
    }
  }

  lemma PreIsRot(block: seq<byte>, i: nat)
    requires i < |block|
    ensures Pre(block, i, |block|) == Rot(block, i)
  {
    var n := |block|;
    PreConcat(block, i, n - i, i);
    AheadWraps(n, i, n - i);
    PreStraight(block, i, n - i);
    PreStraight(block, 0, i);
    assert (n - i) + i == n && block[i..i + (n - i)] == block[i..] && block[0..0 + i] == block[..i];
  }

  lemma {:induction false} LexConcat(a: seq<byte>, b: seq<byte>, c: seq<byte>, d: seq<byte>)
    requires |a| == |b| && |c| == |d|
    ensures LexLe(a + c, b + d) <==> if a == b then LexLe(c, d) else LexLe(a, b)
  {
    if a == [] {
      assert a + c == c && b + d == d;
    } else {
      LexConcat(a[1..], b[1..], c, d);
      assert (a + c)[1..] == a[1..] + c && (b + d)[1..] == b[1..] + d;
      assert a == [a[0]] + a[1..] && b == [b[0]] + b[1..];
      if a[0] == b[0] && a[1..] == b[1..] { assert a == b; }
    }
  }

  /** f lists the rotations in the order of their first h characters. */
  ghost predicate SortedTo(block: seq<byte>, f: seq<nat>, h: nat, from: nat, to: nat) {
    && to <= |f| && (forall i :: 0 <= i < |f| ==> f[i] < |block|)
    && forall i, j :: from <= i <= j < to ==> LexLe(Pre(block, f[i], h), Pre(block, f[j], h))
  }

  /** Rotations i and j of the list agree on their first h characters. */
  ghost predicate Tied(block: seq<byte>, f: seq<nat>, h: nat, i: nat, j: nat)
    requires i < |f| && j < |f| && f[i] < |block| && f[j] < |block|
  {
    Pre(block, f[i], h) == Pre(block, f[j], h)
  }

  /** The header bits from..to-1 mark exactly the places where a new class of tied rotations begins. */
  ghost predicate Headers(block: seq<byte>, f: seq<nat>, bh: seq<bool>, h: nat, from: nat, to: nat) {
    && to <= |f| && to <= |bh| && (forall i :: 0 <= i < |f| ==> f[i] < |block|)
    && forall i :: from <= i < to ==> (bh[i] <==> i == 0 || !Tied(block, f, h, i - 1, i))
  }

  /** The header at or before position i. */
  ghost function Head(bh: seq<bool>, i: nat): (k: nat)
    requires i < |bh|
    ensures k <= i
  {
    if i == 0 || bh[i] then i else Head(bh, i - 1)
  }

  lemma {:induction false} HeadTied(block: seq<byte>, f: seq<nat>, bh: seq<bool>, h: nat, i: nat)
    requires Headers(block, f, bh, h, 0, |f|) && i < |f|
    ensures Tied(block, f, h, Head(bh, i), i)
  {
    if i > 0 && !bh[i] {
      HeadTied(block, f, bh, h, i - 1);
    }
  }

  lemma {:induction false} HeadMonotone(bh: seq<bool>, i: nat, j: nat)
    requires i <= j < |bh|
    ensures Head(bh, i) <= Head(bh, j)
    decreases j
  {
    if i < j && !bh[j] {
      HeadMonotone(bh, i, j - 1);
    }
  }

  lemma {:induction false} TiedHead(block: seq<byte>, f: seq<nat>, bh: seq<bool>, h: nat, j: nat, i: nat)
    requires Headers(block, f, bh, h, 0, |f|) && SortedTo(block, f, h, 0, |f|)
    requires j <= i < |f| && Tied(block, f, h, j, i)
    ensures Head(bh, i) == Head(bh, j)
    decreases i
  {
    if j < i {
      Squeezed(block, f, h, j, i - 1, i);
      TiedHead(block, f, bh, h, j, i - 1);
    }
  }

  /** Whatever stands between two tied rotations is tied with them. */
  lemma Squeezed(block: seq<byte>, f: seq<nat>, h: nat, i: nat, j: nat, k: nat)
    requires SortedTo(block, f, h, 0, |f|) && i <= j <= k < |f| && Tied(block, f, h, i, k)
    ensures Tied(block, f, h, i, j)
  {
    LexAntisymmetric(Pre(block, f[i], h), Pre(block, f[j], h));
  }

  /** A header bit separates everything before it from its own class. */
  lemma HeaderSeparates(block: seq<byte>, f: seq<nat>, bh: seq<bool>, h: nat, i: nat, j: nat)
    requires SortedTo(block, f, h, 0, |f|) && i < j < |f| && j < |bh|
    requires bh[j] && Headers(block, f, bh, h, j, j + 1)
    ensures !Tied(block, f, h, i, j)
  {
    if Tied(block, f, h, i, j) {
      Squeezed(block, f, h, i, j - 1, j);
    }
  }

  /** Comparing headers is comparing prefixes. */
  lemma HeadOrder(block: seq<byte>, f: seq<nat>, bh: seq<bool>, h: nat, i: nat, j: nat)
    requires Headers(block, f, bh, h, 0, |f|) && SortedTo(block, f, h, 0, |f|)
    requires i < |f| && j < |f|
    ensures Head(bh, i) <= Head(bh, j) <==> LexLe(Pre(block, f[i], h), Pre(block, f[j], h))
  {
    HeadTied(block, f, bh, h, i);
    HeadTied(block, f, bh, h, j);
    LexReflexive(Pre(block, f[i], h));
    if i <= j {
      HeadMonotone(bh, i, j);
    } else {
      HeadMonotone(bh, j, i);
      if LexLe(Pre(block, f[i], h), Pre(block, f[j], h)) {
        LexAntisymmetric(Pre(block, f[i], h), Pre(block, f[j], h));
        TiedHead(block, f, bh, h, j, i);
      }
    }
  }

  /** e[x] ranks the h characters that follow the first h characters of rotation x. */
  ghost predicate Ranks(block: seq<byte>, e: seq<nat>, h: nat) {
    && |e| >= |block|
    && forall x, y :: 0 <= x < |block| && 0 <= y < |block| ==>
         (e[x] <= e[y] <==> LexLe(Pre(block, Ahead(|block|, x, h), h), Pre(block, Ahead(|block|, y, h), h)))
  }

  lemma RankAt(block: seq<byte>, e: seq<nat>, h: nat, x: nat, y: nat)
    requires |block| <= |e| && x < |block| && y < |block| && Ranks(block, e, h)
    ensures e[x] <= e[y] <==> LexLe(Pre(block, Ahead(|block|, x, h), h), Pre(block, Ahead(|block|, y, h), h))
  {
  }

  /** Among rotations tied to depth h, the rank orders them to depth 2h. */
  lemma RankDoubles(block: seq<byte>, e: seq<nat>, h: nat, x: nat, y: nat)
    requires |block| <= |e| && x < |block| && y < |block| && Ranks(block, e, h)
    requires Pre(block, x, h) == Pre(block, y, h)
    ensures e[x] <= e[y] <==> LexLe(Pre(block, x, 2 * h), Pre(block, y, 2 * h))
    ensures e[x] == e[y] <==> Pre(block, x, 2 * h) == Pre(block, y, 2 * h)
  {
    hide *;
    var n := |block|;
    var a, p, q := Pre(block, x, h), Pre(block, Ahead(n, x, h), h), Pre(block, Ahead(n, y, h), h);
    RankAt(block, e, h, x, y);
    RankAt(block, e, h, y, x);
    PreConcat(block, x, h, h);
    PreConcat(block, y, h, h);
    assert h + h == 2 * h;
    LexConcat(a, a, p, q);
    Differ(a, p, q);
    LexReflexive(p);
    if e[x] == e[y] {
      LexAntisymmetric(p, q);
    }
  }

  lemma Differ(a: seq<byte>, p: seq<byte>, q: seq<byte>)
    ensures a + p == a + q ==> p == q
  {
    assert (a + p)[|a|..] == p && (a + q)[|a|..] == q;
  }

  /** Rotations that differ within h characters are already in their final order. */
  lemma StrictDeepens(block: seq<byte>, x: nat, y: nat, h: nat, d: nat)
    requires x < |block| && y < |block|
    requires Pre(block, x, h) != Pre(block, y, h) && LexLe(Pre(block, x, h), Pre(block, y, h))
    ensures LexLe(Pre(block, x, h + d), Pre(block, y, h + d)) && Pre(block, x, h + d) != Pre(block, y, h + d)
  {
    PreConcat(block, x, h, d);
    PreConcat(block, y, h, d);
    LexConcat(Pre(block, x, h), Pre(block, y, h),
              Pre(block, Ahead(|block|, x, h), d), Pre(block, Ahead(|block|, y, h), d));
    assert Pre(block, x, h + d)[..h] == Pre(block, x, h) && Pre(block, y, h + d)[..h] == Pre(block, y, h);
  }

  lemma Shallower(block: seq<byte>, x: nat, y: nat, h: nat, d: nat)
    requires x < |block| && y < |block| && LexLe(Pre(block, x, h + d), Pre(block, y, h + d))
    ensures LexLe(Pre(block, x, h), Pre(block, y, h))
  {
    PreConcat(block, x, h, d);
    PreConcat(block, y, h, d);
    LexPrefix(Pre(block, x, h + d), Pre(block, y, h + d), h);
    assert Pre(block, x, h + d)[..h] == Pre(block, x, h) && Pre(block, y, h + d)[..h] == Pre(block, y, h);
  }

  /** A list sorted deeply enough, or without ties left, is a sorted list of whole rotations. */
  lemma DeepEnough(block: seq<byte>, f: seq<nat>, bh: seq<bool>, h: nat)
    requires IsPerm(f, |block|) && SortedTo(block, f, h, 0, |f|) && Headers(block, f, bh, h, 0, |f|)
    requires h >= |block| || forall i :: 0 <= i < |f| ==> bh[i]
    ensures IsOrder(block, f)
  {
    var n := |block|;
    forall i, j | 0 <= i <= j < n
      ensures LexLe(Rot(block, f[i]), Rot(block, f[j]))
    {
      PreIsRot(block, f[i]);
      PreIsRot(block, f[j]);
      if i == j {
        LexReflexive(Rot(block, f[i]));
      } else if h >= n {
        Shallower(block, f[i], f[j], n, h - n);
      } else {
        HeaderSeparates(block, f, bh, h, i, j);
        StrictDeepens(block, f[i], f[j], h, n - h);
      }
    }
  }
}
