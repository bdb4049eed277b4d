/**
 The priority queue of BZ2_hbMakeCodeLengths (dep/bzip2/huffman.c): a binary
 heap of node numbers held in heap[1..nHeap], ordered by weight[node], with
 entry 0 of both arrays as a sentinel.
 */
module CodeLengthHeap {

  /** Position i is one of the two heap positions under position p. */
  ghost predicate Below(p: int, i: int, n: int) {
    1 <= p && (i == 2 * p || i == 2 * p + 1) && i <= n
  }

  /** The parent of every heap position weighs no more than the position. */
  ghost predicate HeapOrder(h: seq<int>, w: seq<int>, n: int) {
    HeapNodes(h, w, n)
    && forall p, i {:trigger h[p], h[i]} :: Below(p, i, n) ==> w[h[p]] <= w[h[i]]
  }

  /** Positions 0..n of the heap hold node numbers that have a weight. */
  ghost predicate HeapNodes(h: seq<int>, w: seq<int>, n: int) {
    0 <= n < |h| && forall i :: 0 <= i <= n ==> 0 <= h[i] < |w|
  }

  /** The nodes currently queued, with their multiplicity. */
  ghost function Queued(h: seq<int>, n: int): multiset<int>
    requires 0 <= n < |h|
  {
    multiset(h[1..n + 1])
  }

  /** The sentinel: node 0 sits at position 0 and no queued node is lighter. */
  ghost predicate Sentinel(h: seq<int>, w: seq<int>, n: int) {
    HeapNodes(h, w, n) && h[0] == 0 && w[0] == 0 && forall i :: 1 <= i <= n ==> 0 <= w[h[i]]
  }

  lemma {:induction false} TopIsLightest(h: seq<int>, w: seq<int>, n: int, i: int)
    requires HeapNodes(h, w, n) && HeapOrder(h, w, n)
    requires 1 <= i <= n
    ensures w[h[1]] <= w[h[i]]
    decreases i
  {
    if i > 1 {
      TopIsLightest(h, w, n, i / 2);
      assert Below(i / 2, i, n);
    }
  }

  lemma QueuedAt(h: seq<int>, n: int, x: int)
    requires 0 <= n < |h|
    ensures x in Queued(h, n) <==> exists i :: 1 <= i <= n && h[i] == x
  {
    var s := h[1..n + 1];
    assert forall i :: 1 <= i <= n ==> h[i] == s[i - 1];
    assert x in Queued(h, n) <==> x in s;
  }

  lemma UpdateQueued(h: seq<int>, n: int, z: int, v: int)
    requires 1 <= z <= n < |h|
    ensures h[z] in Queued(h, n)
    ensures Queued(h[z := v], n) == Queued(h, n)[h[z] := Queued(h, n)[h[z]] - 1] + multiset{v}
  {
    assert h[z := v][1..n + 1] == h[1..n + 1][z - 1 := v];
    assert h[1..n + 1][z - 1] == h[z];
  }

  /** Moving the hole from position z to position y leaves the queued nodes alone. */
  lemma MoveHole(h: seq<int>, n: int, z: int, y: int, tmp: int)
    requires 1 <= n < |h| && 1 <= z <= n && 1 <= y <= n && z != y
    ensures Queued(h[z := h[y]][y := tmp], n) == Queued(h[z := tmp], n)
  {
    UpdateQueued(h, n, z, tmp);
    UpdateQueued(h, n, z, h[y]);
    UpdateQueued(h[z := h[y]], n, y, tmp);
  }

  /** The state inside UPHEAP: tmp is being moved up and has left a hole at position zz. */
  ghost predicate Rising(h: seq<int>, w: seq<int>, z: int, zz: int, tmp: int, queued: multiset<int>) {
    RisingOrder(h, w, z, zz, tmp) && Queued(h[zz := tmp], z) == queued
  }

  ghost predicate RisingOrder(h: seq<int>, w: seq<int>, z: int, zz: int, tmp: int) {
    && 1 <= zz <= z && Sentinel(h, w, z)
    && 0 <= tmp < |w| && 0 <= w[tmp]
    && (forall p, i {:trigger h[p], h[i]} :: Below(p, i, z) && i != zz ==> w[h[p]] <= w[h[i]])
    && (forall i :: Below(zz, i, z) ==> w[tmp] <= w[h[i]])
    && (forall p, i :: Below(p, zz, z) && Below(zz, i, z) ==> w[h[p]] <= w[h[i]])
  }

  lemma RiseOrderStep(h: seq<int>, w: seq<int>, z: int, zz: int, tmp: int)
    requires RisingOrder(h, w, z, zz, tmp) && w[tmp] < w[h[zz / 2]]
    ensures zz > 1 && RisingOrder(h[zz := h[zz / 2]], w, z, zz / 2, tmp)
  {
    var p := zz / 2;
    assert zz > 1 && Below(p, zz, z);
    assert forall q :: Below(q, zz, z) ==> q == p;
  }

  lemma RiseStep(h: seq<int>, w: seq<int>, z: int, zz: int, tmp: int, queued: multiset<int>)
    requires Rising(h, w, z, zz, tmp, queued) && w[tmp] < w[h[zz / 2]]
    ensures zz > 1 && Rising(h[zz := h[zz / 2]], w, z, zz / 2, tmp, queued)
  {
    RiseOrderStep(h, w, z, zz, tmp);
    MoveHole(h, z, zz, zz / 2, tmp);
  }

  lemma RiseEnd(h: seq<int>, w: seq<int>, z: int, zz: int, tmp: int, queued: multiset<int>)
    requires Rising(h, w, z, zz, tmp, queued) && w[tmp] >= w[h[zz / 2]]
    ensures var g := h[zz := tmp]; Sentinel(g, w, z) && HeapOrder(g, w, z) && Queued(g, z) == queued
  {
    assert forall p :: Below(p, zz, z) ==> p == zz / 2;
  }

  /** UPHEAP: the node at position z rises until the heap is ordered again. */
  method UpHeap(heap: array<int>, weight: array<int>, z: int)
    requires heap != weight && 1 <= z < heap.Length
    requires Sentinel(heap[..], weight[..], z) && HeapOrder(heap[..], weight[..], z - 1)
    modifies heap
    ensures Sentinel(heap[..], weight[..], z) && HeapOrder(heap[..], weight[..], z)
    ensures Queued(heap[..], z) == old(Queued(heap[..], z))
  {
    var zz, tmp := z, heap[z];
    ghost var w, queued := weight[..], Queued(heap[..], z);
    assert heap[..][zz := tmp] == heap[..];
    while weight[tmp] < weight[heap[zz / 2]]
      invariant weight[..] == w && Rising(heap[..], w, z, zz, tmp, queued)
      decreases zz
    {
      RiseStep(heap[..], w, z, zz, tmp, queued);
      heap[zz] := heap[zz / 2];
      zz := zz / 2;
    }
    RiseEnd(heap[..], w, z, zz, tmp, queued);
    heap[zz] := tmp;
  }

  /** The state inside DOWNHEAP(1): tmp is being moved down and has left a hole at position zz. */
  ghost predicate Sinking(h: seq<int>, w: seq<int>, n: int, zz: int, tmp: int, queued: multiset<int>) {
    SinkingOrder(h, w, n, zz, tmp) && Queued(h[zz := tmp], n) == queued
  }

  ghost predicate SinkingOrder(h: seq<int>, w: seq<int>, n: int, zz: int, tmp: int) {
    && 1 <= zz <= n && Sentinel(h, w, n)
    && 0 <= tmp < |w| && 0 <= w[tmp]
    && (forall p, i {:trigger h[p], h[i]} :: Below(p, i, n) && p != zz && i != zz ==> w[h[p]] <= w[h[i]])
    && (forall p :: Below(p, zz, n) ==> w[h[p]] <= w[tmp])
    && (forall p, i :: Below(p, zz, n) && Below(zz, i, n) ==> w[h[p]] <= w[h[i]])
  }

  lemma SinkOrderStep(h: seq<int>, w: seq<int>, n: int, zz: int, yy: int, tmp: int)
    requires SinkingOrder(h, w, n, zz, tmp) && Below(zz, yy, n)
    requires forall i :: Below(zz, i, n) ==> w[h[yy]] <= w[h[i]]
    requires w[tmp] >= w[h[yy]]
    ensures SinkingOrder(h[zz := h[yy]], w, n, yy, tmp)
  {
    assert forall p :: Below(p, yy, n) ==> p == zz;
  }

  lemma SinkStep(h: seq<int>, w: seq<int>, n: int, zz: int, yy: int, tmp: int, queued: multiset<int>)
    requires Sinking(h, w, n, zz, tmp, queued) && Below(zz, yy, n)
    requires forall i :: Below(zz, i, n) ==> w[h[yy]] <= w[h[i]]
    requires w[tmp] >= w[h[yy]]
    ensures Sinking(h[zz := h[yy]], w, n, yy, tmp, queued)
  {
    SinkOrderStep(h, w, n, zz, yy, tmp);
    MoveHole(h, n, zz, yy, tmp);
  }

  lemma SinkEnd(h: seq<int>, w: seq<int>, n: int, zz: int, tmp: int, queued: multiset<int>)
    requires Sinking(h, w, n, zz, tmp, queued)
    requires forall i :: Below(zz, i, n) ==> w[tmp] <= w[h[i]]
    ensures var g := h[zz := tmp]; Sentinel(g, w, n) && HeapOrder(g, w, n) && Queued(g, n) == queued
  {
  }

  /** DOWNHEAP(1): the node at the top sinks until the heap is ordered again. */
  method DownHeap(heap: array<int>, weight: array<int>, nHeap: int)
    requires heap != weight && 1 <= nHeap < heap.Length
    requires Sinking(heap[..], weight[..], nHeap, 1, heap[1], Queued(heap[..], nHeap))
    modifies heap
    ensures Sentinel(heap[..], weight[..], nHeap) && HeapOrder(heap[..], weight[..], nHeap)
    ensures Queued(heap[..], nHeap) == old(Queued(heap[..], nHeap))
  {
    var zz, tmp := 1, heap[1];
    ghost var w, queued := weight[..], Queued(heap[..], nHeap);
    while true
      invariant weight[..] == w && Sinking(heap[..], w, nHeap, zz, tmp, queued)
      decreases nHeap - zz
    {
      var yy := zz * 2;
      if yy > nHeap { break; }
      if yy < nHeap && weight[heap[yy + 1]] < weight[heap[yy]] {
        yy := yy + 1;
      }
      if weight[tmp] < weight[heap[yy]] { break; }
      SinkStep(heap[..], w, nHeap, zz, yy, tmp, queued);
      heap[zz] := heap[yy];
      zz := yy;
    }
    SinkEnd(heap[..], w, nHeap, zz, tmp, queued);
    heap[zz] := tmp;
  }

  /** Taking the top: the lightest queued node leaves the heap. */
  method PopLightest(heap: array<int>, weight: array<int>, nHeap: int) returns (node: int)
    requires heap != weight && 1 <= nHeap < heap.Length
    requires Sentinel(heap[..], weight[..], nHeap) && HeapOrder(heap[..], weight[..], nHeap)
    modifies heap
    ensures Sentinel(heap[..], weight[..], nHeap - 1) && HeapOrder(heap[..], weight[..], nHeap - 1)
    ensures old(Queued(heap[..], nHeap)) == Queued(heap[..], nHeap - 1) + multiset{node}
    ensures Lightest(node, weight[..], old(Queued(heap[..], nHeap)))
  {
    hide *;
    node := heap[1];
    ghost var h, w := heap[..], weight[..];
    LightestOf(h, w, nHeap);
    TopReplaced(h, w, nHeap);
    heap[1] := heap[nHeap];
    assert heap[..] == h[1 := h[nHeap]];
    if nHeap > 1 {
      DownHeap(heap, weight, nHeap - 1);
    }
  }

  /** No queued node is lighter than the given one. */
  ghost predicate Lightest(node: int, w: seq<int>, queued: multiset<int>) {
    0 <= node < |w| && forall x :: x in queued ==> 0 <= x < |w| && w[node] <= w[x]
  }

  lemma LightestOf(h: seq<int>, w: seq<int>, n: int)
    requires 1 <= n && Sentinel(h, w, n) && HeapOrder(h, w, n)
    ensures Lightest(h[1], w, Queued(h, n))
  {
    forall x | x in Queued(h, n)
      ensures 0 <= x < |w| && w[h[1]] <= w[x]
    {
      QueuedAt(h, n, x);
      var i :| 1 <= i <= n && h[i] == x;
      TopIsLightest(h, w, n, i);
    }
  }

  lemma QueuedShrink(h: seq<int>, n: int)
    requires 1 <= n < |h|
    ensures Queued(h, n) == Queued(h[1 := h[n]], n - 1) + multiset{h[1]}
  {
    if n == 1 {
      assert h[1..2] == [h[1]];
      assert h[1 := h[n]][1..1] == [];
    } else {
      assert h[1..n + 1] == [h[1]] + h[2..n] + [h[n]];
      assert h[1 := h[n]][1..n] == [h[n]] + h[2..n];
    }
  }

  lemma TopReplaced(h: seq<int>, w: seq<int>, n: int)
    requires 1 <= n && Sentinel(h, w, n) && HeapOrder(h, w, n)
    ensures var g := h[1 := h[n]];
            && Queued(h, n) == Queued(g, n - 1) + multiset{h[1]}
            && (n > 1 ==> Sinking(g, w, n - 1, 1, g[1], Queued(g, n - 1)))
            && (n == 1 ==> Sentinel(g, w, 0) && HeapOrder(g, w, 0))
  {
    var g := h[1 := h[n]];
    QueuedShrink(h, n);
    if n > 1 {
      assert g[1 := g[1]] == g;
      assert SinkingOrder(g, w, n - 1, 1, g[1]);
    }
  }
}
