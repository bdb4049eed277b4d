/**
 BZ2_hbMakeCodeLengths (dep/bzip2/huffman.c): code lengths from symbol
 frequencies, by growing a Huffman tree with a heap and starting over with
 flattened weights until no length exceeds maxLen.
 */
module CodeLengths {
  import opened KraftSum
  import opened CodeLengthHeap
  import opened CodeLengthTree
  import opened CodeCost
  import opened OptimalTree

  const BZ_MAX_ALPHA_SIZE := 258

  /** The weight a symbol starts with: its frequency, but at least 1. */
  function StartWeight(freq: int): int {
    if freq == 0 then 1 else freq
  }

  /** The frequencies, at least 1 each, after they have been flattened k times. */
  ghost function FlatWeights(freq: seq<int>, k: nat): (w: seq<int>)
    ensures |w| == |freq|
  {
    if k == 0 then seq(|freq|, i requires 0 <= i < |freq| => if freq[i] > 1 then freq[i] else 1)
    else
      var v := FlatWeights(freq, k - 1);
      seq(|freq|, i requires 0 <= i < |freq| => 1 + v[i] / 2)
  }

  /** An optimal code for these weights has a length above maxLen. */
  ghost predicate TooDeep(ws: seq<int>, maxLen: int) {
    exists l: seq<nat>, i :: Optimal(ws, l) && 0 <= i < |l| && l[i] > maxLen
  }

  /** Optimal lengths for the frequencies, flattened as often as optimal lengths came out too long. */
  ghost predicate BestLengths(freq: seq<int>, len: seq<nat>, maxLen: int) {
    exists k: nat :: Optimal(FlatWeights(freq, k), len) && forall j: nat :: j < k ==> TooDeep(FlatWeights(freq, j), maxLen)
  }

  ghost function StartSum(freq: seq<int>): int {
    if freq == [] then 0 else StartSum(freq[..|freq| - 1]) + StartWeight(freq[|freq| - 1])
  }

  /** What the two removals from the heap establish about the two nodes removed. */
  lemma TwoLightest(parent: seq<int>, weight: seq<int>, t: int,
                    q0: multiset<int>, q1: multiset<int>, q2: multiset<int>, x: int, y: int)
    requires 1 <= t && t + 1 < |parent| && t + 1 < |weight| && Rooted(parent, t, q0)
    requires q0 == q1 + multiset{x} && q1 == q2 + multiset{y}
    requires Lightest(x, weight, q0) && Lightest(y, weight, q1)
    ensures LightestTwo(parent, weight, t, x, y) && 1 <= x <= t && 1 <= y <= t && t + 1 !in q2
    ensures Rooted(parent[x := t + 1][y := t + 1][t + 1 := -1], t + 1, q2 + multiset{t + 1})
  {
    assert q0 == q2 + multiset{x} + multiset{y};
    assert q0[x] == 1 && q0[y] == 1;
    var P, q := parent[x := t + 1][y := t + 1][t + 1 := -1], q2 + multiset{t + 1};
    forall k
      ensures q[k] == if 1 <= k <= t + 1 && P[k] == -1 then 1 else 0
    {
      assert q0[k] == q2[k] + multiset{x}[k] + multiset{y}[k];
      assert q0[t + 1] == 0;
    }
    assert Rooted(P, t + 1, q);
  }

  /** Appending the joined node to the heap: ready for UPHEAP. */
  lemma HeapAppend(h: seq<int>, w: seq<int>, n: int, node: int, cell: int)
    requires Sentinel(h, w, n) && HeapOrder(h, w, n) && n + 1 < |h|
    requires 1 <= node < |w| && node !in Queued(h, n) && 0 <= cell
    ensures var g, v := h[n + 1 := node], w[node := cell];
            Sentinel(g, v, n + 1) && HeapOrder(g, v, n) && Queued(g, n + 1) == Queued(h, n) + multiset{node}
  {
    var g, v := h[n + 1 := node], w[node := cell];
    forall i | 0 <= i <= n
      ensures h[i] != node && v[h[i]] == w[h[i]]
    {
      QueuedAt(h, n, node);
    }
    assert g[1..n + 2] == h[1..n + 1] + [node];
  }

  /** Nodes 1..n, once each. */
  ghost predicate FirstNodes(queued: multiset<int>, n: int) {
    forall k :: queued[k] == if 1 <= k <= n then 1 else 0
  }

  /** The symbols enter the heap one by one, each a tree of its own. */
  method FillHeap(heap: array<int>, parent: array<int>, weight: array<int>, a: int)
    requires 1 <= a <= BZ_MAX_ALPHA_SIZE
    requires heap.Length == BZ_MAX_ALPHA_SIZE + 2 && parent.Length == weight.Length == 2 * BZ_MAX_ALPHA_SIZE
    requires heap != parent && heap != weight && parent != weight
    requires SymbolCells(weight[..], a) && CellSum(weight[..], a) < 0x80_0000
    modifies heap, parent, weight
    ensures weight[..] == old(weight[..])[0 := 0]
    ensures Sentinel(heap[..], weight[..], a) && HeapOrder(heap[..], weight[..], a)
    ensures Growing(parent[..], weight[..], a, a, seq(a + 1, _ => (0, 0)), 0, old(CellSum(weight[..], a)))
    ensures Rooted(parent[..], a, Queued(heap[..], a))
    ensures forall k :: 1 <= k <= a ==> parent[k] == -1
  {
    hide *;
    heap[0] := 0;
    weight[0] := 0;
    parent[0] := -2;
    ghost var w := weight[..];
    FillStart(heap[..], old(weight[..]), a);
    var i := 1;
    while i <= a
      invariant 1 <= i <= a + 1 && weight[..] == w
      invariant Sentinel(heap[..], w, i - 1) && HeapOrder(heap[..], w, i - 1)
      invariant forall k :: 1 <= k < i ==> parent[k] == -1
      invariant FirstNodes(Queued(heap[..], i - 1), i - 1)
    {
      parent[i] := -1;
      FillStep(heap[..], w, a, i);
      heap[i] := i;
      UpHeap(heap, weight, i);
      i := i + 1;
    }
    FillEnd(parent[..], w, a, Queued(heap[..], a));
  }

  lemma FillStart(h: seq<int>, w: seq<int>, a: int)
    requires |h| > 0 && h[0] == 0 && 1 <= a && SymbolCells(w, a)
    ensures var w' := w[0 := 0];
            && Sentinel(h, w', 0) && HeapOrder(h, w', 0) && FirstNodes(Queued(h, 0), 0)
            && SymbolCells(w', a) && CellSum(w', a) == CellSum(w, a)
  {
    CellSumSkipsSentinel(w, a);
  }

  lemma FillEnd(parent: seq<int>, w: seq<int>, a: int, queued: multiset<int>)
    requires 1 <= a < |parent| && SymbolCells(w, a) && CellSum(w, a) < 0x80_0000
    requires forall k :: 1 <= k <= a ==> parent[k] == -1
    requires FirstNodes(queued, a)
    ensures Growing(parent, w, a, a, seq(a + 1, _ => (0, 0)), 0, CellSum(w, a))
    ensures Rooted(parent, a, queued)
  {
    GrowingStart(parent, w, a);
  }

  lemma FillStep(h: seq<int>, w: seq<int>, a: int, i: int)
    requires 1 <= i <= a && i < |h| && SymbolCells(w, a)
    requires Sentinel(h, w, i - 1) && HeapOrder(h, w, i - 1) && FirstNodes(Queued(h, i - 1), i - 1)
    ensures var g := h[i := i];
            Sentinel(g, w, i) && HeapOrder(g, w, i - 1) && FirstNodes(Queued(g, i), i)
  {
    var q := Queued(h, i - 1);
    assert q[i] == 0;
    assert w[i := w[i]] == w;
    hide HeapOrder, Sentinel, Queued;
    HeapAppend(h, w, i - 1, i, w[i]);
    assert FirstNodes(q + multiset{i}, i);
  }

  lemma {:induction false} CellSumSkipsSentinel(weight: seq<int>, k: int)
    requires 0 <= k < |weight|
    ensures CellSum(weight[0 := 0], k) == CellSum(weight, k)
  {
    if k > 0 {
      CellSumSkipsSentinel(weight, k - 1);
    }
  }

  /** One turn of the joining loop: the two lightest roots leave the heap and their parent enters it. */
  method JoinTwo(heap: array<int>, parent: array<int>, weight: array<int>, a: int, nNodes: int, nHeap: int,
                 ghost kids: seq<(int, int)>, ghost joined: int, ghost total: int)
    returns (ghost x: int, ghost y: int, ghost joined': int)
    requires heap.Length == BZ_MAX_ALPHA_SIZE + 2 && parent.Length == weight.Length == 2 * BZ_MAX_ALPHA_SIZE
    requires heap != parent && heap != weight && parent != weight
    requires 1 <= a <= BZ_MAX_ALPHA_SIZE && 1 < nHeap && nNodes + nHeap == 2 * a && a <= nNodes
    requires Sentinel(heap[..], weight[..], nHeap) && HeapOrder(heap[..], weight[..], nHeap)
    requires Growing(parent[..], weight[..], a, nNodes, kids, joined, total)
    requires Rooted(parent[..], nNodes, Queued(heap[..], nHeap))
    modifies heap, parent, weight
    ensures LightestTwo(old(parent[..]), old(weight[..]), nNodes, x, y)
    ensures Sentinel(heap[..], weight[..], nHeap - 1) && HeapOrder(heap[..], weight[..], nHeap - 1)
    ensures Growing(parent[..], weight[..], a, nNodes + 1, kids + [(x, y)], joined', total)
    ensures Rooted(parent[..], nNodes + 1, Queued(heap[..], nHeap - 1))
    ensures weight[..a + 1] == old(weight[..a + 1])
    ensures 1 <= x <= nNodes && 1 <= y <= nNodes
    ensures parent[..] == old(parent[..])[x := nNodes + 1][y := nNodes + 1][nNodes + 1 := -1]
    ensures weight[..] == old(weight[..])[nNodes + 1 := AddWeights(old(weight[..])[x], old(weight[..])[y])]
  {
    hide *;
    ghost var q0 := Queued(heap[..], nHeap);
    var n1 := PopLightest(heap, weight, nHeap);
    var n2 := PopLightest(heap, weight, nHeap - 1);
    ghost var h, P, W, t := heap[..], parent[..], weight[..], nNodes;
    JoinStep(h, P, W, a, t, nHeap - 2, kids, joined, total, n1, n2, q0);
    var node := nNodes + 1;
    parent[n1] := node;
    parent[n2] := node;
    weight[node] := AddWeights(weight[n1], weight[n2]);
    parent[node] := -1;
    heap[nHeap - 1] := node;
    UpHeap(heap, weight, nHeap - 1);
    x, y, joined' := n1, n2, WeightOf(W[n2]);
  }

  lemma GrowingNodes(P: seq<int>, W: seq<int>, a: int, t: int, kids: seq<(int, int)>, joined: int, total: int)
    requires Growing(P, W, a, t, kids, joined, total)
    ensures 1 <= a <= t
  {
  }

  lemma JoinStep(h: seq<int>, P: seq<int>, W: seq<int>, a: int, t: int, n: int, kids: seq<(int, int)>,
                 joined: int, total: int, x: int, y: int, q0: multiset<int>)
    requires 0 <= n < |h| - 1 && Sentinel(h, W, n) && HeapOrder(h, W, n)
    requires Growing(P, W, a, t, kids, joined, total) && t + 1 < |P| && t + 1 < |W|
    requires Rooted(P, t, q0) && q0 == Queued(h, n) + multiset{y} + multiset{x}
    requires Lightest(x, W, q0) && Lightest(y, W, Queued(h, n) + multiset{y})
    ensures LightestTwo(P, W, t, x, y) && 1 <= x <= t && 1 <= y <= t
    ensures var P' := P[x := t + 1][y := t + 1][t + 1 := -1];
            var W' := W[t + 1 := AddWeights(W[x], W[y])];
            var h' := h[n + 1 := t + 1];
            && Sentinel(h', W', n + 1) && HeapOrder(h', W', n)
            && Growing(P', W', a, t + 1, kids + [(x, y)], WeightOf(W[y]), total)
            && Rooted(P', t + 1, Queued(h', n + 1))
  {
    hide *;
    var q := Queued(h, n);
    GrowingNodes(P, W, a, t, kids, joined, total);
    TwoLightest(P, W, t, q0, q + multiset{y}, q, x, y);
    Join(P, W, a, t, kids, joined, total, x, y);
    JoinFits(P, W, a, t, kids, joined, total, x, y);
    HeapAppend(h, W, n, t + 1, AddWeights(W[x], W[y]));
  }

  /** The joining loop: it stops when one tree is left. */
  method JoinAll(heap: array<int>, parent: array<int>, weight: array<int>, a: int)
    returns (ghost kids: seq<(int, int)>, ghost joined: int)
    requires heap.Length == BZ_MAX_ALPHA_SIZE + 2 && parent.Length == weight.Length == 2 * BZ_MAX_ALPHA_SIZE
    requires heap != parent && heap != weight && parent != weight
    requires 1 <= a <= BZ_MAX_ALPHA_SIZE
    requires SymbolCells(weight[..], a) && CellSum(weight[..], a) < 0x80_0000
    modifies heap, parent, weight
    ensures weight[1..a + 1] == old(weight[1..a + 1])
    ensures Growing(parent[..], weight[..], a, 2 * a - 1, kids, joined, old(CellSum(weight[..], a)))
    ensures parent[2 * a - 1] == -1 && forall k :: 1 <= k < 2 * a - 1 ==> parent[k] != -1
    ensures Thrifty(parent[..], weight[..], a, 2 * a - 1, Weights(old(weight[..]), a))
  {
    hide *;
    ghost var total, ws := CellSum(weight[..], a), Weights(weight[..], a);
    FillHeap(heap, parent, weight, a);
    var nNodes, nHeap := a, a;
    assert Weights(weight[..], a) == ws;
    ThriftyStart(parent[..], weight[..], a);
    kids, joined := seq(a + 1, _ => (0, 0)), 0;
    while nHeap > 1
      invariant 1 <= nHeap && a <= nNodes && nNodes + nHeap == 2 * a
      invariant Sentinel(heap[..], weight[..], nHeap) && HeapOrder(heap[..], weight[..], nHeap)
      invariant Growing(parent[..], weight[..], a, nNodes, kids, joined, total)
      invariant Rooted(parent[..], nNodes, Queued(heap[..], nHeap))
      invariant weight[1..a + 1] == old(weight[1..a + 1])
      invariant Thrifty(parent[..], weight[..], a, nNodes, ws)
    {
      ghost var P, W := parent[..], weight[..];
      ghost var x, y, joined' := JoinTwo(heap, parent, weight, a, nNodes, nHeap, kids, joined, total);
      LightJoin(P, W, a, nNodes, kids, joined, total, x, y);
      ThriftyStep(P, W, a, nNodes, x, y, ws);
      kids, joined := kids + [(x, y)], joined';
      nNodes := nNodes + 1;
      nHeap := nHeap - 1;
    }
    OneTreeLeft(heap[..], parent[..], weight[..], a, nNodes, kids, joined, total);
  }

  lemma LightJoin(P: seq<int>, W: seq<int>, a: int, t: int, kids: seq<(int, int)>, joined: int, total: int, x: int, y: int)
    requires Growing(P, W, a, t, kids, joined, total) && LightestTwo(P, W, t, x, y)
    ensures WeightOf(AddWeights(W[x], W[y])) == WeightOf(W[x]) + WeightOf(W[y]) && forall k :: 1 <= k <= t ==> 0 <= W[k]
  {
    JoinFits(P, W, a, t, kids, joined, total, x, y);
  }

  /** Every joined node weighs what its two parts weigh. */
  lemma KidsWeigh(P: seq<int>, W: seq<int>, a: int, t: int, kids: seq<(int, int)>, joined: int, total: int)
    requires Growing(P, W, a, t, kids, joined, total) && P[t] == -1
    ensures |kids| == t + 1 && t < |W| && forall p :: a < p <= t ==> 0 <= kids[p].0 < |W| && 0 <= kids[p].1 < |W|
    ensures forall p :: a < p <= t ==> WeightOf(W[p]) == WeightOf(W[kids[p].0]) + WeightOf(W[kids[p].1])
    ensures forall k :: 1 <= k <= t ==> 0 <= W[k]
  {
    forall p | a < p <= t
      ensures 0 <= kids[p].0 < |W| && 0 <= kids[p].1 < |W| && WeightOf(W[p]) == WeightOf(W[kids[p].0]) + WeightOf(W[kids[p].1])
    {
      var (x, y) := kids[p];
      assert JoinedFrom(P, W, p, x, y);
      HeightsSmall(P, W, t, joined, total, t, x);
      HeightsSmall(P, W, t, joined, total, t, y);
      JoinCell(W[x], W[y]);
    }
  }

  lemma OneTreeLeft(heap: seq<int>, parent: seq<int>, weight: seq<int>, a: int, t: int, kids: seq<(int, int)>,
                    joined: int, total: int)
    requires 1 < |heap| && Growing(parent, weight, a, t, kids, joined, total)
    requires Rooted(parent, t, Queued(heap, 1))
    ensures parent[t] == -1 && forall k :: 1 <= k < t ==> parent[k] != -1
  {
    var q := Queued(heap, 1);
    assert heap[1..2] == [heap[1]];
    assert q == multiset{heap[1]};
    assert q[t] == 1;
  }

  /** How often the while loop climbs from symbol i + 1 to the root. */
  method CountDepth(parent: array<int>, ghost a: int, ghost t: int, i: int) returns (j: int)
    requires ParentsUp(parent[..], a, t) && 1 <= i <= t
    ensures j == Depth(parent[..], a, t, i)
  {
    j := 0;
    var k := i;
    while parent[k] >= 0
      invariant 1 <= k <= t && 0 <= j
      invariant j + Depth(parent[..], a, t, k) == Depth(parent[..], a, t, i)
      decreases t - k
    {
      k := parent[k];
      j := j + 1;
    }
  }

  /** The lengths of all symbols, and whether one of them is too long. */
  method ReadLengths(len: array<nat>, parent: array<int>, a: int, ghost t: int, maxLen: int) returns (tooLong: bool)
    requires len as object != parent && ParentsUp(parent[..], a, t) && a <= len.Length
    modifies len
    ensures forall i :: 0 <= i < a ==> len[i] == Depth(parent[..], a, t, i + 1)
    ensures forall i :: a <= i < len.Length ==> len[i] == old(len[i])
    ensures tooLong <==> exists i :: 0 <= i < a && len[i] > maxLen
  {
    hide Depth;
    tooLong := false;
    ghost var p, longest := parent[..], 0;
    var i := 1;
    while i <= a
      invariant 1 <= i <= a + 1 && parent[..] == p
      invariant forall k :: 0 <= k < i - 1 ==> len[k] == Depth(p, a, t, k + 1)
      invariant forall k :: a <= k < len.Length ==> len[k] == old(len[k])
      invariant !tooLong ==> forall k :: 0 <= k < i - 1 ==> len[k] <= maxLen
      invariant tooLong ==> 0 <= longest < i - 1 && len[longest] > maxLen
    {
      var j := CountDepth(parent, a, t, i);
      len[i - 1] := j;
      if j > maxLen {
        tooLong, longest := true, i - 1;
      }
      i := i + 1;
    }
  }

  /** Flattening the weights after a length came out too long. */
  method HalveWeights(weight: array<int>, a: int)
    requires SymbolCells(weight[..], a)
    modifies weight
    ensures SymbolCells(weight[..], a)
    ensures CellSum(weight[..], a) <= old(CellSum(weight[..], a))
    ensures (exists i :: 1 <= i <= a && WeightOf(old(weight[i])) > 2) ==>
              CellSum(weight[..], a) < old(CellSum(weight[..], a))
    ensures forall k :: 1 <= k <= a ==> WeightOf(weight[k]) == 1 + old(WeightOf(weight[k])) / 2
  {
    var i := 1;
    ghost var w := weight[..];
    while i <= a
      invariant 1 <= i <= a + 1 && weight.Length == |w|
      invariant forall k :: i <= k <= a ==> weight[k] == w[k]
      invariant forall k :: 1 <= k < i ==> weight[k] == 256 * (1 + WeightOf(w[k]) / 2)
    {
      var j := weight[i] / 256;
      j := 1 + j / 2;
      weight[i] := 256 * j;
      i := i + 1;
    }
    HalvedSum(w, weight[..], a);
  }

  lemma {:induction false} HalvedSum(w: seq<int>, v: seq<int>, k: int)
    requires 0 <= k < |w| && |v| == |w|
    requires forall i :: 1 <= i <= k ==> 256 <= w[i] && v[i] == 256 * (1 + WeightOf(w[i]) / 2)
    ensures CellSum(v, k) <= CellSum(w, k)
    ensures (exists i :: 1 <= i <= k && WeightOf(w[i]) > 2) ==> CellSum(v, k) < CellSum(w, k)
    ensures forall i :: 1 <= i <= k ==> 256 <= v[i] && HeightOf(v[i]) == 0
  {
    if k > 0 {
      HalvedSum(w, v, k - 1);
    }
  }

  /** If every weight is 1 or 2, no leaf of the tree is deeper than 12. */
  lemma FlatWeightsFit(parent: seq<int>, weight: seq<int>, a: int, kids: seq<(int, int)>, joined: int, total: int, k: int)
    requires Growing(parent, weight, a, 2 * a - 1, kids, joined, total) && a <= BZ_MAX_ALPHA_SIZE
    requires parent[2 * a - 1] == -1 && forall i :: 1 <= i < 2 * a - 1 ==> parent[i] != -1
    requires total == CellSum(weight, a) && forall i :: 1 <= i <= a ==> WeightOf(weight[i]) <= 2
    requires 1 <= k <= a
    ensures Depth(parent, a, 2 * a - 1, k) <= 12
  {
    var t := 2 * a - 1;
    assert ParentsUp(parent, a, t) && Balanced(parent, weight, t, joined) && Stacked(parent, weight, t);
    assert RootWeight(parent, weight, t) == total;
    hide Growing, Forest;
    FlatSum(weight, a);
    RootHeight(parent, weight, t, joined, 15);
    DepthBelowHeight(parent, weight, a, t, k);
  }

  lemma RootHeight(parent: seq<int>, weight: seq<int>, t: int, joined: int, n: nat)
    requires 1 <= t < |parent| && t < |weight| && Balanced(parent, weight, t, joined) && parent[t] == -1
    requires n == 15 && RootWeight(parent, weight, t) < 610
    ensures HeightOf(weight[t]) + 2 < n
  {
    hide WeightOf, HeightOf, Fib;
    RootsOutweigh(parent, weight, t);
    FibValues();
    FibBoundsHeight(weight[t], 15, RootWeight(parent, weight, t));
  }

  lemma {:induction false} FlatSum(weight: seq<int>, k: int)
    requires 0 <= k < |weight| && forall i :: 1 <= i <= k ==> WeightOf(weight[i]) <= 2
    ensures CellSum(weight, k) <= 2 * k
  {
    if k > 0 {
      FlatSum(weight, k - 1);
    }
  }

  /** The lengths read off a finished tree have Kraft sum 1. */
  lemma LengthsOfTree(parent: seq<int>, weight: seq<int>, a: int, kids: seq<(int, int)>, joined: int, total: int,
                      lens: seq<nat>)
    requires Growing(parent, weight, a, 2 * a - 1, kids, joined, total) && 2 <= a
    requires parent[2 * a - 1] == -1 && forall i :: 1 <= i < 2 * a - 1 ==> parent[i] != -1
    requires |lens| == a && forall i :: 0 <= i < a ==> lens[i] == Depth(parent, a, 2 * a - 1, i + 1)
    ensures Kraft(lens) == 1.0
  {
    hide *;
    var t := 2 * a - 1;
    TreeParents(parent, weight, a, t, kids, joined, total);
    EveryCutIsOne(parent, weight, a, t, kids, a);
    KraftIsCut(parent, a, t, a, lens);
  }

  lemma LengthsPositive(parent: seq<int>, a: int, t: int, lens: seq<nat>)
    requires ParentsUp(parent, a, t) && 2 <= a && t == 2 * a - 1
    requires forall i :: 1 <= i < t ==> parent[i] != -1
    requires |lens| == a && forall i :: 0 <= i < a ==> lens[i] == Depth(parent, a, t, i + 1)
    ensures forall i :: 0 <= i < a ==> 1 <= lens[i]
  {
  }

  /** A length over 12 shows that some weight is still above 2, so that flattening makes progress. */
  lemma TooLongIsHeavy(parent: seq<int>, weight: seq<int>, a: int, kids: seq<(int, int)>, joined: int, total: int, k: int)
    requires Growing(parent, weight, a, 2 * a - 1, kids, joined, total) && a <= BZ_MAX_ALPHA_SIZE
    requires parent[2 * a - 1] == -1 && forall i :: 1 <= i < 2 * a - 1 ==> parent[i] != -1
    requires total == CellSum(weight, a) && 1 <= k <= a
    requires Depth(parent, a, 2 * a - 1, k) > 12
    ensures exists i :: 1 <= i <= a && WeightOf(weight[i]) > 2
  {
    if forall i :: 1 <= i <= a ==> WeightOf(weight[i]) <= 2 {
      FlatWeightsFit(parent, weight, a, kids, joined, total, k);
    }
  }

  /** The starting weights. */
  method StartWeights(weight: array<int>, freq: array<int>, a: int)
    requires weight != freq && 0 <= a <= freq.Length && a < weight.Length
    requires forall i :: 0 <= i < a ==> 0 <= freq[i]
    modifies weight
    ensures SymbolCells(weight[..], a) && CellSum(weight[..], a) == StartSum(freq[..a])
    ensures forall k :: 1 <= k <= a ==> WeightOf(weight[k]) == StartWeight(freq[k - 1])
  {
    var i := 0;
    while i < a
      invariant 0 <= i <= a && freq[..] == old(freq[..])
      invariant forall k :: 1 <= k <= i ==> weight[k] == 256 * StartWeight(freq[k - 1])
    {
      weight[i + 1] := 256 * (if freq[i] == 0 then 1 else freq[i]);
      i := i + 1;
    }
    StartCells(weight[..], freq[..], a);
  }

  lemma {:induction false} StartCells(w: seq<int>, freq: seq<int>, k: int)
    requires 0 <= k < |w| && k <= |freq| && forall i :: 0 <= i < k ==> 0 <= freq[i]
    requires forall i :: 1 <= i <= k ==> w[i] == 256 * StartWeight(freq[i - 1])
    ensures SymbolCells(w, k) && CellSum(w, k) == StartSum(freq[..k])
  {
    if k > 0 {
      StartCells(w, freq, k - 1);
      assert freq[..k][..k - 1] == freq[..k - 1];
    }
  }

  lemma {:induction false} SameCells(w: seq<int>, v: seq<int>, k: int)
    requires 0 <= k < |w| && k < |v| && w[1..k + 1] == v[1..k + 1]
    ensures CellSum(w, k) == CellSum(v, k)
    ensures SymbolCells(w, k) == SymbolCells(v, k)
  {
    if k > 0 {
      assert w[k] == w[1..k + 1][k - 1] && v[k] == v[1..k + 1][k - 1];
      assert w[1..k] == w[1..k + 1][..k - 1] && v[1..k] == v[1..k + 1][..k - 1];
      SameCells(w, v, k - 1);
    }
  }

  /** One turn of the outer loop: a tree is grown for the weights ws and its lengths are read. */
  method GrowTree(heap: array<int>, parent: array<int>, weight: array<int>, len: array<nat>, a: int, maxLen: int, ghost ws: seq<int>)
    returns (tooLong: bool)
    requires heap.Length == BZ_MAX_ALPHA_SIZE + 2 && parent.Length == weight.Length == 2 * BZ_MAX_ALPHA_SIZE
    requires heap != parent && heap != weight && parent != weight && len as object != heap && len as object != parent && len as object != weight
    requires 2 <= a <= BZ_MAX_ALPHA_SIZE && a <= len.Length && 12 <= maxLen
    requires SymbolCells(weight[..], a) && CellSum(weight[..], a) < 0x80_0000 && Weights(weight[..], a) == ws
    modifies heap, parent, weight, len
    ensures SymbolCells(weight[..], a) && CellSum(weight[..], a) == old(CellSum(weight[..], a)) && Weights(weight[..], a) == ws
    ensures Kraft(len[..a]) == 1.0 && Optimal(ws, len[..a]) && forall i :: 0 <= i < a ==> 1 <= len[i]
    ensures forall i :: a <= i < len.Length ==> len[i] == old(len[i])
    ensures tooLong <==> exists i :: 0 <= i < a && len[i] > maxLen
    ensures tooLong ==> exists i :: 1 <= i <= a && WeightOf(weight[i]) > 2
  {
    hide *;
    ghost var w, t := weight[..], 2 * a - 1;
    ghost var kids, joined := JoinAll(heap, parent, weight, a);
    SameCells(w, weight[..], a);
    SameWeights(w, weight[..], a);
    TreeParents(parent[..], weight[..], a, t, kids, joined, CellSum(w, a));
    tooLong := ReadLengths(len, parent, a, t, maxLen);
    LengthsPositive(parent[..], a, t, len[..a]);
    LengthsOfTree(parent[..], weight[..], a, kids, joined, CellSum(w, a), len[..a]);
    KidsWeigh(parent[..], weight[..], a, t, kids, joined, CellSum(w, a));
    TreeIsOptimal(parent[..], weight[..], a, t, kids, ws, len[..a]);
    if tooLong {
      ghost var k :| 0 <= k < a && len[k] > maxLen;
      TooLongIsHeavy(parent[..], weight[..], a, kids, joined, CellSum(w, a), k + 1);
    }
  }

  /**
   Code lengths for alphaSize symbols: no prefix code for the frequencies costs less, or, as long as an optimal one is too long, for the
   flattened frequencies. The loop ends for every maxLen from 12 on (the callers pass 17): flattening lowers the total weight until all
   weights are 1 or 2, and such a tree is at most 12 deep. No array index leaves its range and no cell leaves 32 bits, whatever the
   frequencies.
   */
  method MakeCodeLengths(len: array<nat>, freq: array<int>, alphaSize: int, maxLen: int)
    requires 2 <= alphaSize <= BZ_MAX_ALPHA_SIZE && alphaSize <= len.Length && alphaSize <= freq.Length
    requires forall i :: 0 <= i < alphaSize ==> 0 <= freq[i]
    requires StartSum(freq[..alphaSize]) < 0x80_0000
    requires 12 <= maxLen
    modifies len
    ensures Kraft(len[..alphaSize]) == 1.0 && BestLengths(old(freq[..alphaSize]), len[..alphaSize], maxLen)
    ensures forall i :: 0 <= i < alphaSize ==> 1 <= len[i] <= maxLen
    ensures forall i :: alphaSize <= i < len.Length ==> len[i] == old(len[i])
  {
    hide *;
    var heap := new int[BZ_MAX_ALPHA_SIZE + 2];
    var weight := new int[2 * BZ_MAX_ALPHA_SIZE];
    var parent := new int[2 * BZ_MAX_ALPHA_SIZE];
    ghost var f, n: nat := freq[..alphaSize], 0;
    StartWeights(weight, freq, alphaSize);
    FirstWeights(weight[..], f);
    var tooLong := true;
    while tooLong
      invariant Weights(weight[..], alphaSize) == FlatWeights(f, n)
      invariant forall j: nat :: j < n ==> TooDeep(FlatWeights(f, j), maxLen)
      invariant SymbolCells(weight[..], alphaSize) && CellSum(weight[..], alphaSize) < 0x80_0000
      invariant forall i :: alphaSize <= i < len.Length ==> len[i] == old(len[i])
      invariant !tooLong ==> Kraft(len[..alphaSize]) == 1.0 && Optimal(FlatWeights(f, n), len[..alphaSize])
      invariant !tooLong ==> forall i :: 0 <= i < alphaSize ==> 1 <= len[i] <= maxLen
      decreases tooLong, CellSum(weight[..], alphaSize)
    {
      CellsPositive(weight[..], alphaSize);
      tooLong := GrowTree(heap, parent, weight, len, alphaSize, maxLen, FlatWeights(f, n));
      if tooLong {
        ghost var k :| 0 <= k < alphaSize && len[k] > maxLen;
        IsTooDeep(FlatWeights(f, n), len[..alphaSize], maxLen, k);
        ghost var w := weight[..];
        HalveWeights(weight, alphaSize);
        FlatterWeights(w, weight[..], f, n);
        n := n + 1;
      }
    }
    AreBest(f, len[..alphaSize], maxLen, n);
  }

  lemma FirstWeights(weight: seq<int>, f: seq<int>)
    requires |f| < |weight| && forall i :: 1 <= i <= |f| ==> WeightOf(weight[i]) == StartWeight(f[i - 1])
    requires forall i :: 0 <= i < |f| ==> 0 <= f[i]
    ensures Weights(weight, |f|) == FlatWeights(f, 0)
  {
    hide WeightOf;
  }

  lemma AreBest(f: seq<int>, len: seq<nat>, maxLen: int, k: nat)
    requires Optimal(FlatWeights(f, k), len) && forall j: nat :: j < k ==> TooDeep(FlatWeights(f, j), maxLen)
    ensures BestLengths(f, len, maxLen)
  {
    hide Optimal, FlatWeights, TooDeep;
  }

  lemma IsTooDeep(ws: seq<int>, l: seq<nat>, maxLen: int, i: nat)
    requires Optimal(ws, l) && i < |l| && l[i] > maxLen
    ensures TooDeep(ws, maxLen)
  {
    hide Optimal;
  }

  lemma FlatterWeights(w: seq<int>, v: seq<int>, f: seq<int>, k: nat)
    requires |f| < |w| && |f| < |v| && Weights(w, |f|) == FlatWeights(f, k)
    requires forall i :: 1 <= i <= |f| ==> WeightOf(v[i]) == 1 + WeightOf(w[i]) / 2
    ensures Weights(v, |f|) == FlatWeights(f, k + 1)
  {
    hide WeightOf;
    assert forall i :: 0 <= i < |f| ==> WeightOf(w[i + 1]) == FlatWeights(f, k)[i];
  }

  lemma SameWeights(w: seq<int>, v: seq<int>, a: nat)
    requires a < |w| && a < |v| && w[1..a + 1] == v[1..a + 1]
    ensures Weights(w, a) == Weights(v, a)
  {
    hide WeightOf;
    forall i | 0 <= i < a
      ensures Weights(w, a)[i] == Weights(v, a)[i]
    {
      assert w[i + 1] == w[1..a + 1][i] && v[i + 1] == v[1..a + 1][i];
    }
  }

  lemma {:induction false} CellsPositive(w: seq<int>, k: int)
    requires SymbolCells(w, k)
    ensures 0 <= CellSum(w, k)
  {
    if k > 0 {
      CellsPositive(w, k - 1);
    }
  }

  lemma TreeParents(P: seq<int>, W: seq<int>, a: int, t: int, kids: seq<(int, int)>, joined: int, total: int)
    requires Growing(P, W, a, t, kids, joined, total)
    ensures ParentsUp(P, a, t) && Forest(P, W, a, t, kids)
  {
  }

}
