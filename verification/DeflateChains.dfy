/**
 The hash chains of deflate (INSERT_STRING, dep/zlib/deflate.c:186-189, and the sliding of head and prev, dep/zlib/deflate.c:1424-1447):
 prev is indexed modulo the window size, so that a link is only good while its place has not been taken by a later string.
 */
module DeflateChains {
  import opened Bits
  import opened DeflateHash

  /** The hash of the string at j in the window. */
  function HashAt(c: Hashing, w: seq<byte>, j: nat): (h: nat)
    requires j + 2 < |w|
    ensures h < Pow2(c.bits)
  {
    Hash(c, w[j], w[j + 1], w[j + 2])
  }

  /**
   The window, whose first end bytes are valid, and the strings whose place in prev is still their own: no string from far on has
   been inserted. All strings are below top.
   */
  datatype View = View(c: Hashing, w: seq<byte>, end: nat, wsize: nat, ins: set<nat>, top: nat, far: nat)

  /** v is no string, or a string before bound with hash h; when it is near enough to be looked at, its own link is good. */
  ghost predicate Link(s: View, v: nat, bound: nat, h: nat) {
    v == 0 || (v < bound && v + 3 <= s.end <= |s.w| && HashAt(s.c, s.w, v) == h && (v in s.ins || v + s.wsize < s.far))
  }

  /** The link of string j is good. */
  ghost predicate Linked(s: View, prev: seq<nat>, j: nat) {
    && j < s.top && s.far <= j + s.wsize && j + 3 <= s.end <= |s.w| && 0 < s.wsize == |prev|
    && Link(s, prev[j % s.wsize], j, HashAt(s.c, s.w, j))
  }

  /** Of the strings before bound with hash h, none lies behind v. */
  ghost predicate Latest(s: View, v: nat, bound: nat, h: nat) {
    forall j :: j in s.ins && j < bound && j + 2 < |s.w| && HashAt(s.c, s.w, j) == h ==> j <= v
  }

  ghost predicate LatestLink(s: View, prev: seq<nat>, j: nat) {
    0 < s.wsize == |prev| && j + 2 < |s.w| && Latest(s, prev[j % s.wsize], j, HashAt(s.c, s.w, j))
  }

  /** Every link is good, and none passes over a string. */
  ghost predicate Chains(s: View, prev: seq<nat>, head: seq<nat>) {
    && 0 < s.wsize == |prev| && |head| == Pow2(s.c.bits) && s.end <= |s.w|
    && (forall h :: 0 <= h < |head| ==> Link(s, head[h], s.top, h))
    && (forall j :: j in s.ins ==> Linked(s, prev, j))
    && (forall h :: 0 <= h < |head| ==> Latest(s, head[h], s.top, h))
    && (forall j :: j in s.ins ==> LatestLink(s, prev, j))
  }

  lemma ChainsIs(s: View, prev: seq<nat>, head: seq<nat>)
    ensures Chains(s, prev, head) <==>
            && 0 < s.wsize == |prev| && |head| == Pow2(s.c.bits) && s.end <= |s.w|
            && (forall h :: 0 <= h < |head| ==> Link(s, head[h], s.top, h))
            && (forall j :: j in s.ins ==> Linked(s, prev, j))
            && (forall h :: 0 <= h < |head| ==> Latest(s, head[h], s.top, h))
            && (forall j :: j in s.ins ==> LatestLink(s, prev, j))
  {
    hide Link, Linked, Latest, LatestLink;
  }

  lemma LatestLinkIs(s: View, prev: seq<nat>, j: nat)
    ensures LatestLink(s, prev, j) <==>
              0 < s.wsize == |prev| && j + 2 < |s.w| && Latest(s, prev[j % s.wsize], j, HashAt(s.c, s.w, j))
  {
    hide Latest, HashAt;
  }

  lemma LatestAt(s: View, v: nat, bound: nat, h: nat, j: nat)
    requires Latest(s, v, bound, h) && j in s.ins && j < bound && j + 2 < |s.w| && HashAt(s.c, s.w, j) == h
    ensures j <= v
  {
    hide HashAt;
  }

  /** The same strings, or fewer of them, below the bound. */
  lemma LatestKept(s: View, v: nat, bound: nat, h: nat, s': View, bound': nat)
    requires Latest(s, v, bound, h) && s'.c == s.c && s'.w == s.w
    requires forall j :: j in s'.ins && j < bound' && j + 2 < |s.w| && HashAt(s.c, s.w, j) == h ==> j in s.ins && j < bound
    ensures Latest(s', v, bound', h)
  {
    hide HashAt;
  }

  lemma LinkIs(s: View, v: nat, bound: nat, h: nat)
    ensures Link(s, v, bound, h) <==>
            v == 0 || (v < bound && v + 3 <= s.end <= |s.w| && HashAt(s.c, s.w, v) == h && (v in s.ins || v + s.wsize < s.far))
  {
    hide HashAt;
  }

  lemma LinkedIs(s: View, prev: seq<nat>, j: nat)
    ensures Linked(s, prev, j) <==>
            && j < s.top && s.far <= j + s.wsize && j + 3 <= s.end <= |s.w| && 0 < s.wsize == |prev|
            && Link(s, prev[j % s.wsize], j, HashAt(s.c, s.w, j))
  {
    hide HashAt, Link;
  }

  lemma LinkKept(s: View, v: nat, bound: nat, bound': nat, h: nat, s': View)
    requires Link(s, v, bound, h) && (v < bound ==> v == 0 || v < bound') && s.far <= s'.far
    requires s' == s.(ins := s'.ins, top := s'.top, far := s'.far)
    requires forall j :: j in s.ins && s'.far <= j + s.wsize ==> j in s'.ins
    ensures Link(s', v, bound', h)
  {
    hide HashAt;
  }

  /** All strings are below another bound: one that is higher, or the place where only two bytes are left. */
  lemma Bounded(s: View, prev: seq<nat>, head: seq<nat>, top: nat)
    requires Chains(s, prev, head) && (s.top <= top || s.end <= top + 2)
    ensures Chains(s.(top := top), prev, head)
  {
    hide *;
    var s' := s.(top := top);
    ChainsIs(s, prev, head);
    forall j | j in s'.ins
      ensures Linked(s', prev, j) && LatestLink(s', prev, j) && j < s.top
    {
      LinkedIs(s, prev, j);
      LinkKept(s, prev[j % s.wsize], j, j, HashAt(s.c, s.w, j), s');
      LinkedIs(s', prev, j);
      LatestLinkIs(s, prev, j);
      LatestKept(s, prev[j % s.wsize], j, HashAt(s.c, s.w, j), s', j);
      LatestLinkIs(s', prev, j);
    }
    forall h | 0 <= h < |head|
      ensures Link(s', head[h], top, h) && Latest(s', head[h], top, h)
    {
      LinkIs(s, head[h], s.top, h);
      LinkKept(s, head[h], s.top, top, h, s');
      LatestKept(s, head[h], s.top, h, s', top);
    }
    ChainsIs(s', prev, head);
  }

  /** Two places of prev that are less than its size apart are different. */
  lemma ModApart(a: nat, b: nat, n: nat)
    requires a < b < a + n
    ensures a % n != b % n
  {
    var q := b / n - a / n;
    Multiple(q, n);
    assert b - a == q * n + (b % n - a % n) by {
      Division(a, n);
      Division(b, n);
      Distribute(b / n, a / n, n);
    }
  }

  lemma Division(a: nat, n: nat)
    requires n > 0
    ensures a == (a / n) * n + a % n
  {
  }

  lemma Distribute(a: int, b: int, n: int)
    ensures (a - b) * n == a * n - b * n
  {
  }

  lemma Multiple(q: int, n: nat)
    ensures q * n >= n || q * n <= 0
  {
    if q >= 1 {
      Distribute(q, 1, n);
      Grows(q - 1, n);
    } else {
      Grows(-q, n);
      Distribute(0, -q, n);
    }
  }

  lemma Grows(a: nat, n: nat)
    ensures a * n >= 0
  {
  }

  /** INSERT_STRING. */
  function Inserted(s: View, str: nat): View {
    var far := if s.far > str then s.far else str + 1;
    s.(ins := (set j | j in s.ins && far <= j + s.wsize) + {str}, top := str + 1, far := far)
  }

  lemma InsertedIs(s: View, str: nat)
    ensures var s' := Inserted(s, str);
            && s' == s.(ins := s'.ins, top := str + 1, far := s'.far) && s'.far == (if s.far > str then s.far else str + 1)
            && forall j :: j in s'.ins <==> j == str || (j in s.ins && s'.far <= j + s.wsize)
  {
  }

  /** The strings from one position up to another, inserted one after the other. */
  ghost function InsertRange(v: View, from: nat, to: nat): View {
    if to <= from then v else Inserted(InsertRange(v, from, to - 1), to - 1)
  }

  lemma InsertRangeNext(v: View, from: nat, to: nat)
    ensures from <= to ==> InsertRange(v, from, to + 1) == Inserted(InsertRange(v, from, to), to)
    ensures to <= from ==> InsertRange(v, from, to) == v
  {
    hide Inserted;
  }

  /** The strings from low on are still there when positions have gone down by d. */
  ghost predicate Stays(ins: set<nat>, d: nat, ins': set<nat>, low: nat) {
    forall j: nat :: low <= j && j + d in ins ==> j in ins'
  }

  lemma StaysThen(a: set<nat>, d: nat, b: set<nat>, low: nat, d': nat, c: set<nat>, low': nat)
    requires Stays(a, d, b, low) && Stays(b, d', c, low') && low <= low' + d'
    ensures Stays(a, d + d', c, low')
  {
    forall j: nat | low' <= j && j + (d + d') in a
      ensures j in c
    {
      assert j + d' + d in a && j + d' in b;
    }
  }

  lemma StaysHere(a: set<nat>, low: nat)
    ensures Stays(a, 0, a, low)
  {
    forall j: nat | low <= j && j + 0 in a
      ensures j in a
    {
    }
  }

  lemma SlidStays(ins: set<nat>, wsize: nat, low: nat)
    ensures Stays(ins, wsize, SlidSet(ins, wsize), low)
  {
    forall j: nat | low <= j && j + wsize in ins
      ensures j in SlidSet(ins, wsize)
    {
      assert j + wsize >= wsize;
    }
  }

  lemma {:induction false} RangeStays(v: View, first: nat, end: nat, low: nat)
    requires v.far <= low + v.wsize && end <= low + v.wsize
    ensures InsertRange(v, first, end).wsize == v.wsize && InsertRange(v, first, end).far <= low + v.wsize
    ensures Stays(v.ins, 0, InsertRange(v, first, end).ins, low)
    decreases end
  {
    hide Inserted;
    if end <= first {
      StaysHere(v.ins, low);
    } else {
      RangeStays(v, first, end - 1, low);
      var u := InsertRange(v, first, end - 1);
      InsertedIs(u, end - 1);
      forall j: nat | low <= j && j + 0 in v.ins
        ensures j in InsertRange(v, first, end).ins
      {
        assert j in u.ins;
      }
    }
  }

  /** Inserting a string behind all others keeps the chains; what was the head before is linked from it. */
  lemma Insert(s: View, prev: seq<nat>, head: seq<nat>, str: nat, h: nat)
    requires Chains(s, prev, head) && s.top <= str && s.far <= str + s.wsize && str + 3 <= s.end && str + 3 <= |s.w| && h == HashAt(s.c, s.w, str)
    ensures h < |head| && str % |prev| < |prev|
    ensures Chains(Inserted(s, str), prev[str % |prev| := head[h]], head[h := str])
    ensures Link(Inserted(s, str), head[h], str, h)
  {
    hide *;
    var s' := Inserted(s, str);
    InsertedIs(s, str);
    ChainsIs(s, prev, head);
    HashFits(s.c, s.w, str);
    var prev', head' := prev[str % |prev| := head[h]], head[h := str];
    forall j | j in s.ins
      ensures j < s.top && j + 2 < |s.w|
    {
      LinkedIs(s, prev, j);
    }
    forall g | 0 <= g < |head'|
      ensures Link(s', head'[g], s'.top, g) && Latest(s', head'[g], s'.top, g)
    {
      if g == h {
        LinkIs(s', str, s'.top, h);
        BehindAll(s', str, s'.top, h);
      } else {
        LinkKept(s, head[g], s.top, s'.top, g, s');
        LatestKept(s, head[g], s.top, g, s', s'.top);
      }
    }
    LinkKept(s, head[h], s.top, str, h, s');
    LatestKept(s, head[h], s.top, h, s', str);
    forall j | j in s'.ins
      ensures Linked(s', prev', j) && LatestLink(s', prev', j)
    {
      if j == str {
      } else {
        LinkedIs(s, prev, j);
        ModApart(j, str, s.wsize);
        LinkKept(s, prev[j % s.wsize], j, j, HashAt(s.c, s.w, j), s');
        LatestLinkIs(s, prev, j);
        LatestKept(s, prev[j % s.wsize], j, HashAt(s.c, s.w, j), s', j);
      }
      LinkedIs(s', prev', j);
      LatestLinkIs(s', prev', j);
    }
    ChainsIs(s', prev', head');
  }

  lemma BehindAll(s: View, v: nat, bound: nat, h: nat)
    requires bound <= v + 1
    ensures Latest(s, v, bound, h)
  {
  }

  lemma HashFits(c: Hashing, w: seq<byte>, j: nat)
    requires j + 2 < |w|
    ensures HashAt(c, w, j) < Pow2(c.bits)
  {
  }

  /** Following a link to a string near enough. */
  lemma Follow(s: View, prev: seq<nat>, j: nat)
    requires Linked(s, prev, j)
    ensures 0 < s.wsize == |prev|
    ensures var v := prev[j % s.wsize];
            v != 0 && s.far <= v + s.wsize ==> v in s.ins && v < j && v + 3 <= s.end <= |s.w| && j + 3 <= s.end && HashAt(s.c, s.w, v) == HashAt(s.c, s.w, j)
  {
    hide HashAt;
  }

  /** More bytes behind the valid ones. */
  lemma Append(s: View, prev: seq<nat>, head: seq<nat>, w: seq<byte>, end: nat)
    requires Chains(s, prev, head) && s.end <= end <= |w| == |s.w| && w[..s.end] == s.w[..s.end]
    ensures Chains(s.(w := w, end := end), prev, head)
  {
    hide *;
    var s' := s.(w := w, end := end);
    ChainsIs(s, prev, head);
    forall j | j in s.ins
      ensures j + 2 < |w| && HashAt(s.c, w, j) == HashAt(s.c, s.w, j)
    {
      LinkedIs(s, prev, j);
      SameHash(s.c, s.w, j, w, j, s.end);
    }
    forall h | 0 <= h < |head|
      ensures Link(s', head[h], s.top, h) && Latest(s', head[h], s.top, h)
    {
      LinkAppend(s, head[h], s.top, h, w, end);
      LatestAppend(s, head[h], s.top, h, w, end);
    }
    forall j | j in s.ins
      ensures Linked(s', prev, j) && LatestLink(s', prev, j)
    {
      LinkedIs(s, prev, j);
      LinkAppend(s, prev[j % s.wsize], j, HashAt(s.c, s.w, j), w, end);
      LinkedIs(s', prev, j);
      LatestLinkIs(s, prev, j);
      LatestAppend(s, prev[j % s.wsize], j, HashAt(s.c, s.w, j), w, end);
      LatestLinkIs(s', prev, j);
    }
    ChainsIs(s', prev, head);
  }

  lemma LinkAppend(s: View, v: nat, bound: nat, h: nat, w: seq<byte>, end: nat)
    requires Link(s, v, bound, h) && s.end <= end <= |w| == |s.w| && w[..s.end] == s.w[..s.end]
    ensures Link(s.(w := w, end := end), v, bound, h)
  {
    hide HashAt;
    if v != 0 {
      SameHash(s.c, s.w, v, w, v, s.end);
    }
  }

  lemma LatestAppend(s: View, v: nat, bound: nat, h: nat, w: seq<byte>, end: nat)
    requires Latest(s, v, bound, h) && |w| == |s.w|
    requires forall j :: j in s.ins ==> j + 2 < |w| && HashAt(s.c, w, j) == HashAt(s.c, s.w, j)
    ensures Latest(s.(w := w, end := end), v, bound, h)
  {
    hide HashAt;
  }

  lemma SameHash(c: Hashing, w: seq<byte>, j: nat, w': seq<byte>, j': nat, end: nat)
    requires j == j' && j + 3 <= end <= |w| == |w'| && w'[..end] == w[..end]
    ensures HashAt(c, w, j) == HashAt(c, w', j')
  {
    assert w[..end][j] == w'[..end][j] && w[..end][j + 1] == w'[..end][j + 1] && w[..end][j + 2] == w'[..end][j + 2];
  }

  /** A position after the window has slid: NIL for what has left it. */
  function Slid(v: nat, wsize: nat): nat {
    if v >= wsize then v - wsize else 0
  }

  /** The upper half of the window has moved down. */
  ghost predicate MovedDown(s: View, w': seq<byte>) {
    |s.w| == 2 * s.wsize == |w'| && w'[..s.wsize] == s.w[s.wsize..]
  }

  /** The strings that are left in the window. */
  function SlidSet(ins: set<nat>, wsize: nat): set<nat> {
    set j | j in ins && j >= wsize :: j - wsize
  }

  function SlidView(s: View, w': seq<byte>): View
    requires s.wsize <= s.end && s.wsize <= s.top
  {
    s.(w := w', end := s.end - s.wsize, ins := SlidSet(s.ins, s.wsize), top := s.top - s.wsize,
       far := if s.far >= s.wsize then s.far - s.wsize else 0)
  }

  lemma SlidIs(s: View, w': seq<byte>)
    requires s.wsize <= s.end && s.wsize <= s.top
    ensures var s' := SlidView(s, w');
            && s'.ins == SlidSet(s.ins, s.wsize) && s' == s.(w := w', end := s.end - s.wsize, ins := s'.ins, top := s.top - s.wsize, far := s'.far)
            && s'.far == (if s.far >= s.wsize then s.far - s.wsize else 0)
            && forall j :: j in s'.ins <==> j >= 0 && j + s.wsize in s.ins
  {
    var s' := SlidView(s, w');
    forall j | j >= 0 && j + s.wsize in s.ins
      ensures j in s'.ins
    {
      assert j + s.wsize >= s.wsize;
    }
  }

  lemma SlidStrings(s: View, w': seq<byte>)
    requires s.wsize <= s.end && s.wsize <= s.top
    ensures SlidView(s, w').ins == SlidSet(s.ins, s.wsize)
  {
    SlidIs(s, w');
  }

  /** Sliding the window with head and prev keeps the chains. */
  lemma Slide(s: View, prev: seq<nat>, head: seq<nat>, w': seq<byte>, prev': seq<nat>, head': seq<nat>)
    requires Chains(s, prev, head) && s.wsize <= s.end && s.wsize <= s.top && MovedDown(s, w')
    requires |prev'| == |prev| && forall k :: 0 <= k < |prev| ==> prev'[k] == Slid(prev[k], s.wsize)
    requires |head'| == |head| && forall k :: 0 <= k < |head| ==> head'[k] == Slid(head[k], s.wsize)
    ensures Chains(SlidView(s, w'), prev', head')
  {
    hide *;
    var s' := SlidView(s, w');
    SlidIs(s, w');
    ChainsIs(s, prev, head);
    MovedDownIs(s, w');
    forall j | j in s'.ins
      ensures j + s.wsize in s.ins && j + s.wsize + 2 < |s.w| && j + 2 < |w'|
      ensures HashAt(s.c, w', j) == HashAt(s.c, s.w, j + s.wsize)
    {
      LinkedIs(s, prev, j + s.wsize);
      HashSlid(s, j + s.wsize, w');
    }
    forall h | 0 <= h < |head'|
      ensures Link(s', head'[h], s'.top, h) && Latest(s', head'[h], s'.top, h)
    {
      LinkSlid(s, head[h], s.top, h, w');
      LatestSlid(s, head[h], s.top, h, s', s'.top);
    }
    forall j | j in s'.ins
      ensures Linked(s', prev', j) && LatestLink(s', prev', j)
    {
      var i := j + s.wsize;
      LatestLinkIs(s, prev, i);
      ModSlid(j, s.wsize);
      LatestSlid(s, prev[i % s.wsize], i, HashAt(s.c, s.w, i), s', j);
      LatestLinkIs(s', prev', j);
      LinkedIs(s, prev, i);
      ModSlid(j, s.wsize);
      LinkSlid(s, prev[i % s.wsize], i, HashAt(s.c, s.w, i), w');
      HashSlid(s, i, w');
      LinkedIs(s', prev', j);
    }
    ChainsIs(s', prev', head');
  }

  lemma MovedDownIs(s: View, w': seq<byte>)
    ensures MovedDown(s, w') <==> |s.w| == 2 * s.wsize == |w'| && w'[..s.wsize] == s.w[s.wsize..]
  {
  }

  lemma ModSlid(j: nat, n: nat)
    requires n > 0
    ensures (j + n) % n == j % n
  {
    var q := (j + n) / n - j / n - 1;
    Division(j, n);
    Division(j + n, n);
    Distribute((j + n) / n, j / n, n);
    Distribute((j + n) / n - j / n, 1, n);
    Multiple(q, n);
    Multiple(-q, n);
    Distribute(0, q, n);
  }

  lemma HashSlid(s: View, i: nat, w': seq<byte>)
    requires s.wsize <= i && i + 2 < |s.w| && MovedDown(s, w')
    ensures i - s.wsize + 2 < |w'| && HashAt(s.c, w', i - s.wsize) == HashAt(s.c, s.w, i)
  {
    var j := i - s.wsize;
    assert w'[..s.wsize][j] == s.w[s.wsize..][j] && w'[..s.wsize][j + 1] == s.w[s.wsize..][j + 1];
    assert w'[..s.wsize][j + 2] == s.w[s.wsize..][j + 2];
  }

  lemma LinkSlid(s: View, v: nat, bound: nat, h: nat, w': seq<byte>)
    requires Link(s, v, bound, h) && s.wsize <= s.end && s.wsize <= s.top && MovedDown(s, w') && s.end <= |s.w|
    ensures Link(SlidView(s, w'), Slid(v, s.wsize), if bound >= s.wsize then bound - s.wsize else 0, h)
  {
    hide *;
    SlidIs(s, w');
    MovedDownIs(s, w');
    var s' := SlidView(s, w');
    var u, b := Slid(v, s.wsize), if bound >= s.wsize then bound - s.wsize else 0;
    SlidTo(v, s.wsize);
    LinkIs(s, v, bound, h);
    LinkIs(s', u, b, h);
    if v >= s.wsize && v != 0 {
      HashSlid(s, v, w');
    }
  }

  lemma LatestSlid(s: View, v: nat, bound: nat, h: nat, s': View, bound': nat)
    requires Latest(s, v, bound, h) && bound' + s.wsize <= bound && s'.c == s.c
    requires forall j :: j in s'.ins ==> j + s.wsize in s.ins && j + s.wsize + 2 < |s.w| && j + 2 < |s'.w|
                                         && HashAt(s.c, s'.w, j) == HashAt(s.c, s.w, j + s.wsize)
    ensures Latest(s', Slid(v, s.wsize), bound', h)
  {
    hide HashAt;
    forall j | j in s'.ins && j < bound' && j + 2 < |s'.w| && HashAt(s'.c, s'.w, j) == h
      ensures j <= Slid(v, s.wsize)
    {
      LatestAt(s, v, bound, h, j + s.wsize);
    }
  }

  lemma SlidTo(v: nat, wsize: nat)
    ensures Slid(v, wsize) == if v >= wsize then v - wsize else 0
  {
  }

  /** CLEAR_HASH. */
  lemma Cleared(c: Hashing, w: seq<byte>, end: nat, prev: seq<nat>, head: seq<nat>, top: nat, far: nat)
    requires 0 < |prev| && |head| == Pow2(c.bits) && end <= |w| && forall h :: 0 <= h < |head| ==> head[h] == 0
    ensures Chains(View(c, w, end, |prev|, {}, top, far), prev, head)
  {
  }
}
