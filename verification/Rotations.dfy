/**
 The Burrows-Wheeler transform as mathematics: the rotations of a block, what
 it means for a list of positions to hold them in sorted order, and why the
 last column determines the block.
 */
module Rotations {
  import opened Bits
  import opened CountingOrder

  /** The rotation of the block that starts at position i. */
  function Rot(block: seq<byte>, i: nat): (r: seq<byte>)
    requires i < |block|
    ensures |r| == |block|
  {
    block[i..] + block[..i]
  }

  /** Lexicographic order on strings of the same length. */
  predicate LexLe(s: seq<byte>, t: seq<byte>)
    requires |s| == |t|
  {
    s == [] || s[0] < t[0] || (s[0] == t[0] && LexLe(s[1..], t[1..]))
  }

  lemma {:induction false} LexReflexive(s: seq<byte>)
    ensures LexLe(s, s)
  {
    if s != [] {
      LexReflexive(s[1..]);
    }
  }

  lemma {:induction false} LexAntisymmetric(s: seq<byte>, t: seq<byte>)
    requires |s| == |t| && LexLe(s, t) && LexLe(t, s)
    ensures s == t
  {
    if s != [] {
      LexAntisymmetric(s[1..], t[1..]);
      assert s == [s[0]] + s[1..] && t == [t[0]] + t[1..];
    }
  }

  lemma {:induction false} LexTransitive(s: seq<byte>, t: seq<byte>, u: seq<byte>)
    requires |s| == |t| == |u| && LexLe(s, t) && LexLe(t, u)
    ensures LexLe(s, u)
  {
    if s != [] && s[0] == t[0] == u[0] {
      LexTransitive(s[1..], t[1..], u[1..]);
    }
  }

  lemma {:induction false} LexTotal(s: seq<byte>, t: seq<byte>)
    requires |s| == |t|
    ensures LexLe(s, t) || LexLe(t, s)
  {
    if s != [] {
      LexTotal(s[1..], t[1..]);
    }
  }

  /** Cutting equally long tails off keeps the order. */
  lemma {:induction false} LexPrefix(s: seq<byte>, t: seq<byte>, m: nat)
    requires |s| == |t| && m <= |s| && LexLe(s, t)
    ensures LexLe(s[..m], t[..m])
  {
    if m > 0 && s[0] == t[0] {
      LexPrefix(s[1..], t[1..], m - 1);
      assert s[..m][1..] == s[1..][..m - 1] && t[..m][1..] == t[1..][..m - 1];
    }
  }

  // Lists of positions.

  function Range(n: nat): (r: seq<nat>)
    ensures |r| == n && forall i :: 0 <= i < n ==> r[i] == i
  {
    seq(n, i => i)
  }

  /** ptr lists each of 0..n-1 once. */
  ghost predicate IsPerm(ptr: seq<nat>, n: nat) {
    |ptr| == n && (forall i :: 0 <= i < n ==> ptr[i] < n) && (forall i, j :: 0 <= i < j < n ==> ptr[i] != ptr[j])
  }

  /** ptr lists the rotations of the block in sorted order; equal rotations may come in any order. */
  ghost predicate IsOrder(block: seq<byte>, ptr: seq<nat>) {
    && IsPerm(ptr, |block|)
    && forall i, j :: 0 <= i <= j < |block| ==> LexLe(Rot(block, ptr[i]), Rot(block, ptr[j]))
  }

  /** The sorted list of rotations itself. */
  ghost function Rows(block: seq<byte>, ptr: seq<nat>): (rows: seq<seq<byte>>)
    requires forall i :: 0 <= i < |ptr| ==> ptr[i] < |block|
    ensures |rows| == |ptr| && forall i :: 0 <= i < |ptr| ==> rows[i] == Rot(block, ptr[i])
  {
    seq(|ptr|, i requires 0 <= i < |ptr| => Rot(block, ptr[i]))
  }

  ghost predicate SortedRows(rows: seq<seq<byte>>, n: nat) {
    (forall i :: 0 <= i < |rows| ==> |rows[i]| == n) && forall i, j :: 0 <= i <= j < |rows| ==> LexLe(rows[i], rows[j])
  }

  /** Two sorted lists of the same strings are the same list. */
  lemma {:induction false} SortedIsUnique(a: seq<seq<byte>>, b: seq<seq<byte>>, n: nat)
    requires SortedRows(a, n) && SortedRows(b, n) && multiset(a) == multiset(b)
    ensures a == b
  {
    hide *;
    SameSize(a, b);
    if a != [] {
      TailSorted(a, n);
      TailSorted(b, n);
      LowestFirst(a, b, n);
      LowestFirst(b, a, n);
      LexAntisymmetric(a[0], b[0]);
      OneLess(a);
      OneLess(b);
      SortedIsUnique(a[1..], b[1..], n);
    }
  }

  lemma TailSorted(a: seq<seq<byte>>, n: nat)
    requires SortedRows(a, n) && a != []
    ensures SortedRows(a[1..], n)
  {
    hide LexLe;
  }

  lemma SameSize<T>(a: seq<T>, b: seq<T>)
    requires multiset(a) == multiset(b)
    ensures |a| == |b|
  {
    assert |multiset(a)| == |a| && |multiset(b)| == |b|;
  }

  /** The first of a sorted list is no greater than anything in it, and so than the first of another list of the same strings. */
  lemma LowestFirst(a: seq<seq<byte>>, b: seq<seq<byte>>, n: nat)
    requires SortedRows(a, n) && multiset(a) == multiset(b) && a != [] && b != []
    ensures |a[0]| == |b[0]| == n && LexLe(a[0], b[0])
  {
    hide LexLe;
    assert b[0] in multiset(b);
    assert b[0] in multiset(a);
    var j :| 0 <= j < |a| && a[j] == b[0];
    assert LexLe(a[0], a[j]);
  }

  lemma OneLess<T>(a: seq<T>)
    requires a != []
    ensures a == [a[0]] + a[1..] && multiset(a[1..]) == multiset(a) - multiset{a[0]}
  {
    assert a == [a[0]] + a[1..];
  }

  // Two listings of the same positions hold the same rotations.

  lemma {:induction false} PermCounts(p: seq<nat>, n: nat, k: nat, x: nat)
    requires IsPerm(p, n) && k <= n
    ensures multiset(p[..k])[x] <= 1
    ensures multiset(p[..k])[x] == 1 <==> x in p[..k]
    decreases k
  {
    if k > 0 {
      PermCounts(p, n, k - 1, x);
      assert p[..k] == p[..k - 1] + [p[k - 1]];
    }
  }

  lemma PermIsRange(p: seq<nat>, n: nat)
    requires IsPerm(p, n)
    ensures multiset(p) == multiset(Range(n))
  {
    var m, r := multiset(p), multiset(Range(n));
    assert p[..n] == p && Range(n)[..n] == Range(n);
    forall x: nat
      ensures m[x] <= r[x]
    {
      PermCounts(p, n, n, x);
      PermCounts(Range(n), n, n, x);
      if x in p {
        assert Range(n)[x] == x;
      }
    }
    assert m <= r;
    assert |r - m| == 0;
    assert r == m + (r - m);
  }

  lemma {:induction false} SameRows(block: seq<byte>, p: seq<nat>, q: seq<nat>)
    requires multiset(p) == multiset(q)
    requires forall i :: 0 <= i < |p| ==> p[i] < |block|
    requires forall i :: 0 <= i < |q| ==> q[i] < |block|
    ensures multiset(Rows(block, p)) == multiset(Rows(block, q))
    decreases |p|
  {
    if p == [] {
      assert |multiset(q)| == 0;
    } else {
      hide *;
      var j := Match(p, q);
      var p', q' := p[..0] + p[1..], q[..j] + q[j + 1..];
      SameRows(block, p', q');
      RowsTakeOut(block, p, 0);
      RowsTakeOut(block, q, j);
    }
  }

  lemma Match(p: seq<nat>, q: seq<nat>) returns (j: nat)
    requires p != [] && multiset(p) == multiset(q)
    ensures j < |q| && q[j] == p[0] && multiset(p[..0] + p[1..]) == multiset(q[..j] + q[j + 1..])
  {
    assert p[0] in multiset(q);
    j :| 0 <= j < |q| && q[j] == p[0];
    TakeOut(p, 0);
    TakeOut(q, j);
    Cancel(multiset(p[..0] + p[1..]), multiset(q[..j] + q[j + 1..]), p[0]);
  }

  lemma Cancel<T>(a: multiset<T>, b: multiset<T>, x: T)
    requires a + multiset{x} == b + multiset{x}
    ensures a == b
  {
    assert a == (a + multiset{x}) - multiset{x};
    assert b == (b + multiset{x}) - multiset{x};
  }

  lemma TakeOut<T>(s: seq<T>, j: nat)
    requires j < |s|
    ensures multiset(s) == multiset(s[..j] + s[j + 1..]) + multiset{s[j]}
  {
    assert s == s[..j] + [s[j]] + s[j + 1..];
  }

  lemma RowsTakeOut(block: seq<byte>, q: seq<nat>, j: nat)
    requires j < |q| && forall i :: 0 <= i < |q| ==> q[i] < |block|
    ensures multiset(Rows(block, q)) == multiset(Rows(block, q[..j] + q[j + 1..])) + multiset{Rot(block, q[j])}
  {
    var rows := Rows(block, q);
    TakeOut(rows, j);
    assert rows[..j] + rows[j + 1..] == Rows(block, q[..j] + q[j + 1..]);
  }

  // The last column and the way back.

  /** The position before p in the block, cyclically. */
  function Before(p: nat, n: nat): (r: nat)
    requires p < n
    ensures r < n
  {
    if p == 0 then n - 1 else p - 1
  }

  /** The last characters of the sorted rotations. */
  ghost function LastColumn(block: seq<byte>, ptr: seq<nat>): (l: seq<byte>)
    requires forall i :: 0 <= i < |ptr| ==> ptr[i] < |block|
    ensures |l| == |ptr| && forall i :: 0 <= i < |ptr| ==> l[i] == block[Before(ptr[i], |block|)]
  {
    seq(|ptr|, i requires 0 <= i < |ptr| => block[Before(ptr[i], |block|)])
  }

  /** Rotating one step back moves the last character to the front. */
  lemma RotBefore(block: seq<byte>, p: nat)
    requires p < |block|
    ensures var q, n := Before(p, |block|), |block|;
            && Rot(block, q) == [block[q]] + Rot(block, p)[..n - 1]
            && Rot(block, p) == Rot(block, q)[1..] + [block[q]]
  {
    var q, n := Before(p, |block|), |block|;
    if p == 0 {
      assert block[q..] == [block[q]];
    } else {
      assert block[q..] == [block[q]] + block[p..];
      assert block[..p] == block[..q] + [block[q]];
    }
  }

  /** The rotations one step back, listed as perm sorts the last column. */
  ghost function Stepped(ptr: seq<nat>, perm: seq<nat>, n: nat): (s: seq<nat>)
    requires |ptr| == n && |perm| >= n && forall r :: 0 <= r < n ==> perm[r] < n && ptr[perm[r]] < n
    ensures |s| == n && forall r :: 0 <= r < n ==> s[r] == Before(ptr[perm[r]], n)
  {
    seq(n, r requires 0 <= r < n => Before(ptr[perm[r]], n))
  }

  /**
   Sorting the last column stably and stepping every rotation one back gives
   the sorted list of rotations again, ties or no ties.
   */
  lemma SteppedIsSorted(block: seq<byte>, ptr: seq<nat>, perm: seq<nat>, r: nat)
    requires IsOrder(block, ptr) && Permuted(LastColumn(block, ptr), perm)
    requires r < |block|
    ensures r < |perm| && perm[r] < |block| && Rot(block, Before(ptr[perm[r]], |block|)) == Rot(block, ptr[r])
  {
    var n, l := |block|, LastColumn(block, ptr);
    forall k | 0 <= k < n
      ensures k < |perm| && perm[k] < n && SortedPlace(l, perm[k]) == k
    {
      PermutedInverse(l, perm, 256, k);
    }
    PermutedInverse(l, perm, 256, n - 1);
    var s := Stepped(ptr, perm, n);
    SteppedIsPerm(ptr, perm, n, l);
    PermIsRange(s, n);
    PermIsRange(ptr, n);
    SameRows(block, s, ptr);
    SteppedRowsSorted(block, ptr, perm);
    SortedIsUnique(Rows(block, s), Rows(block, ptr), n);
    assert Rows(block, s)[r] == Rows(block, ptr)[r];
  }

  lemma SteppedIsPerm(ptr: seq<nat>, perm: seq<nat>, n: nat, l: seq<nat>)
    requires IsPerm(ptr, n) && |l| == n && |perm| >= n
    requires forall k :: 0 <= k < n ==> perm[k] < n && SortedPlace(l, perm[k]) == k
    ensures IsPerm(Stepped(ptr, perm, n), n)
  {
    var s := Stepped(ptr, perm, n);
    forall i, j | 0 <= i < j < n
      ensures s[i] != s[j]
    {
      assert perm[i] != perm[j];
      assert ptr[perm[i]] != ptr[perm[j]];
    }
  }

  lemma SteppedRowsSorted(block: seq<byte>, ptr: seq<nat>, perm: seq<nat>)
    requires IsOrder(block, ptr) && |perm| >= |block|
    requires forall k :: 0 <= k < |block| ==> perm[k] < |block| && SortedPlace(LastColumn(block, ptr), perm[k]) == k
    ensures SortedRows(Rows(block, Stepped(ptr, perm, |block|)), |block|)
  {
    var n, l := |block|, LastColumn(block, ptr);
    var rows := Rows(block, Stepped(ptr, perm, n));
    forall i, j | 0 <= i <= j < n
      ensures LexLe(rows[i], rows[j])
    {
      if i == j {
        LexReflexive(rows[i]);
      } else {
        PlaceOrder(l, perm[i], perm[j]);
        RotBefore(block, ptr[perm[i]]);
        RotBefore(block, ptr[perm[j]]);
        if perm[i] < perm[j] {
          LexPrefix(Rot(block, ptr[perm[i]]), Rot(block, ptr[perm[j]]), n - 1);
        }
        assert rows[i][1..] == Rot(block, ptr[perm[i]])[..n - 1];
        assert rows[j][1..] == Rot(block, ptr[perm[j]])[..n - 1];
      }
    }
  }

  /** The bytes met by following perm k times, starting at place r. */
  ghost function Walk(l: seq<byte>, perm: seq<nat>, r: nat, k: nat): (out: seq<byte>)
    requires |perm| >= |l| && r < |l| && forall i :: 0 <= i < |l| ==> perm[i] < |l|
    ensures |out| == k
    decreases k
  {
    if k == 0 then [] else [l[perm[r]]] + Walk(l, perm, perm[r], k - 1)
  }

  /** The walk is at a rotation equal to rotation k; one step takes it to a rotation equal to the next one. */
  lemma WalkStep(block: seq<byte>, ptr: seq<nat>, perm: seq<nat>, r: nat, k: nat)
    requires IsOrder(block, ptr) && Permuted(LastColumn(block, ptr), perm)
    requires r < |block| && k < |block| && Rot(block, ptr[r]) == Rot(block, k)
    ensures r < |perm| && perm[r] < |block| && block[k] == LastColumn(block, ptr)[perm[r]]
    ensures Rot(block, ptr[perm[r]]) == Rot(block, if k + 1 == |block| then 0 else k + 1)
  {
    SteppedIsSorted(block, ptr, perm, r);
    var n, l, p := |block|, LastColumn(block, ptr), perm[r];
    RotBefore(block, ptr[p]);
    var next := if k + 1 == n then 0 else k + 1;
    RotBefore(block, next);
    assert Before(next, n) == k;
    assert block[k] == Rot(block, k)[0] == l[p];
  }

  lemma {:induction false} WalkFrom(block: seq<byte>, ptr: seq<nat>, perm: seq<nat>, r: nat, k: nat)
    requires IsOrder(block, ptr) && Permuted(LastColumn(block, ptr), perm)
    requires |perm| >= |block| && forall i :: 0 <= i < |block| ==> perm[i] < |block|
    requires r < |block| && k < |block| && Rot(block, ptr[r]) == Rot(block, k)
    ensures Walk(LastColumn(block, ptr), perm, r, |block| - k) == block[k..]
    decreases |block| - k
  {
    hide Rot, Permuted, LexLe;
    WalkStep(block, ptr, perm, r, k);
    if k + 1 < |block| {
      WalkFrom(block, ptr, perm, perm[r], k + 1);
      assert block[k..] == [block[k]] + block[k + 1..];
    } else {
      assert block[k..] == [block[k]];
      assert Walk(LastColumn(block, ptr), perm, perm[r], 0) == [];
    }
  }

  /**
   The inverse transform: whichever sorted order the compressor found, walking
   from the place of rotation 0 gives the block back. Nothing is asked of the
   block; it may be periodic, so that several rotations are equal.
   */
  lemma WalkGivesBlock(block: seq<byte>, ptr: seq<nat>, perm: seq<nat>, origPtr: nat)
    requires IsOrder(block, ptr) && Permuted(LastColumn(block, ptr), perm)
    requires origPtr < |block| && ptr[origPtr] == 0
    ensures |perm| >= |block| && forall i :: 0 <= i < |block| ==> perm[i] < |block|
    ensures Walk(LastColumn(block, ptr), perm, origPtr, |block|) == block
  {
    forall i | 0 <= i < |block|
      ensures i < |perm| && perm[i] < |block|
    {
      SteppedIsSorted(block, ptr, perm, i);
    }
    SteppedIsSorted(block, ptr, perm, |block| - 1);
    WalkFrom(block, ptr, perm, origPtr, 0);
    assert block[0..] == block;
  }

  /** The last column does not depend on how ties between equal rotations are broken. */
  lemma LastColumnUnique(block: seq<byte>, ptr: seq<nat>, ptr': seq<nat>)
    requires IsOrder(block, ptr) && IsOrder(block, ptr')
    ensures LastColumn(block, ptr) == LastColumn(block, ptr')
  {
    var n := |block|;
    PermIsRange(ptr, n);
    PermIsRange(ptr', n);
    SameRows(block, ptr, ptr');
    SortedIsUnique(Rows(block, ptr), Rows(block, ptr'), n);
    forall i | 0 <= i < n
      ensures LastColumn(block, ptr)[i] == LastColumn(block, ptr')[i]
    {
      RotBefore(block, ptr[i]);
      RotBefore(block, ptr'[i]);
      assert Rows(block, ptr)[i] == Rows(block, ptr')[i];
    }
  }
}
