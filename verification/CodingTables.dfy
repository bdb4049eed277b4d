/**
 The coding tables of a block: the code lengths of every table, sent as a first length and unary
 steps up and down (dep/bzip2/compress.c, dep/bzip2/decompress.c).
 */
module CodingTables {
  import opened Bits
  import opened BitReader
  import opened BitWriter
  import opened MappingTable

  // The format.

  /** The steps from one length to the next: 10 is one up, 11 is one down. */
  function StepBits(curr: nat, len: nat): seq<bool>
    decreases if curr <= len then len - curr else curr - len
  {
    if curr < len then [true, false] + StepBits(curr + 1, len)
    else if curr > len then [true, true] + StepBits(curr - 1, len)
    else []
  }

  function DeltaBits(curr: nat, lens: seq<nat>): seq<bool>
    decreases |lens|
  {
    if lens == [] then [] else StepBits(curr, lens[0]) + [false] + DeltaBits(lens[0], lens[1..])
  }

  /** One table. */
  function TableBits(lens: seq<nat>): seq<bool>
    requires lens != []
  {
    BitsOf(5, lens[0]) + DeltaBits(lens[0], lens)
  }

  function TablesBits(tables: seq<seq<nat>>): seq<bool>
    requires forall t :: 0 <= t < |tables| ==> tables[t] != []
  {
    if tables == [] then [] else TableBits(tables[0]) + TablesBits(tables[1..])
  }

  /** One length; every length on the way must be in 1..20. */
  function ReadLength(bits: seq<bool>, curr: nat): (r: Read<nat>)
    ensures r.Done? ==> 1 <= r.value <= 20 && |r.rest| < |bits|
    decreases |bits|, 1
  {
    if curr < 1 || curr > 20 then Stop(DataError)
    else if bits == [] then Stop(NeedInput)
    else if !bits[0] then Done(curr, bits[1..])
    else ReadStep(bits[1..], curr)
  }

  /** The second bit of a step says whether it leads up or down. */
  function ReadStep(bits: seq<bool>, curr: nat): (r: Read<nat>)
    requires 1 <= curr
    ensures r.Done? ==> 1 <= r.value <= 20 && |r.rest| < |bits|
    decreases |bits|
  {
    if bits == [] then Stop(NeedInput) else ReadLength(bits[1..], if bits[0] then curr - 1 else curr + 1)
  }

  predicate InRange(lens: seq<nat>) {
    forall i :: 0 <= i < |lens| ==> 1 <= lens[i] <= 20
  }

  function ReadLengths(bits: seq<bool>, curr: nat, n: nat): (r: Read<seq<nat>>)
    ensures r.Done? ==> |r.value| == n && |r.rest| <= |bits| && InRange(r.value)
    decreases n, 1
  {
    if n == 0 then Done([], bits) else ThenLengths(ReadLength(bits, curr), n)
  }

  /** A length that has been read, and the n - 1 behind it. */
  function ThenLengths(first: Read<nat>, n: nat): (r: Read<seq<nat>>)
    requires n > 0 && (first.Done? ==> 1 <= first.value <= 20)
    ensures r.Done? ==> first.Done? && |r.value| == n && |r.rest| <= |first.rest| && InRange(r.value)
    decreases n, 0
  {
    match first
    case Done(len, rest) => Prepend([len], ReadLengths(rest, len, n - 1))
    case Stop(why) => Stop(why)
  }

  function ReadTable(bits: seq<bool>, n: nat): (r: Read<seq<nat>>)
    ensures r.Done? ==> |r.value| == n && |r.rest| <= |bits| && InRange(r.value)
  {
    if |bits| < 5 then Stop(NeedInput) else ReadLengths(bits[5..], Value(bits[..5]), n)
  }

  ghost predicate Lengths(tables: seq<seq<nat>>, n: nat) {
    forall t :: 0 <= t < |tables| ==> |tables[t]| == n && InRange(tables[t])
  }

  function ReadTables(bits: seq<bool>, nGroups: nat, n: nat): (r: Read<seq<seq<nat>>>)
    ensures r.Done? ==> |r.value| == nGroups && |r.rest| <= |bits| && Lengths(r.value, n)
    decreases nGroups, 1
  {
    if nGroups == 0 then Done([], bits) else ThenTables(ReadTable(bits, n), nGroups, n)
  }

  /** A table that has been read, and the nGroups - 1 behind it. */
  function ThenTables(first: Read<seq<nat>>, nGroups: nat, n: nat): (r: Read<seq<seq<nat>>>)
    requires nGroups > 0 && (first.Done? ==> |first.value| == n && InRange(first.value))
    ensures r.Done? ==> first.Done? && |r.value| == nGroups && |r.rest| <= |first.rest| && Lengths(r.value, n)
    decreases nGroups, 0
  {
    match first
    case Done(lens, rest) => Prepend([lens], ReadTables(rest, nGroups - 1, n))
    case Stop(why) => Stop(why)
  }

  // The round trip.

  lemma {:induction false} LengthRoundTrip(curr: nat, len: nat, more: seq<bool>)
    requires 1 <= curr <= 20 && 1 <= len <= 20
    ensures ReadLength(StepBits(curr, len) + [false] + more, curr) == Done(len, more)
    decreases if curr <= len then len - curr else curr - len
  {
    var bits := StepBits(curr, len) + [false] + more;
    if curr == len {
      assert bits[1..] == more;
    } else {
      var next := if curr < len then curr + 1 else curr - 1;
      assert bits[1..][1..] == StepBits(next, len) + [false] + more;
      LengthRoundTrip(next, len, more);
    }
  }

  lemma Regroup(a: seq<bool>, b: seq<bool>, c: seq<bool>, d: seq<bool>)
    ensures a + b + c + d == a + b + (c + d)
  {
  }

  lemma {:induction false} LengthsRoundTrip(curr: nat, lens: seq<nat>, more: seq<bool>)
    requires 1 <= curr <= 20 && InRange(lens)
    ensures ReadLengths(DeltaBits(curr, lens) + more, curr, |lens|) == Done(lens, more)
    decreases |lens|
  {
    if lens == [] {
      assert [] + more == more;
    } else {
      Regroup(StepBits(curr, lens[0]), [false], DeltaBits(lens[0], lens[1..]), more);
      LengthRoundTrip(curr, lens[0], DeltaBits(lens[0], lens[1..]) + more);
      LengthsRoundTrip(lens[0], lens[1..], more);
      assert lens == [lens[0]] + lens[1..];
    }
  }

  lemma FieldAndRest(a: seq<bool>, b: seq<bool>, more: seq<bool>)
    ensures (a + b + more)[..|a|] == a && (a + b + more)[|a|..] == b + more && a + b + more == a + (b + more)
  {
  }

  lemma TableRoundTrip(lens: seq<nat>, more: seq<bool>)
    requires lens != [] && InRange(lens)
    ensures ReadTable(TableBits(lens) + more, |lens|) == Done(lens, more)
  {
    assert Pow2(5) == 32;
    hide BitsOf, Value, ReadLengths, DeltaBits, Pow2;
    FieldAndRest(BitsOf(5, lens[0]), DeltaBits(lens[0], lens), more);
    ValueOfBits(5, lens[0]);
    LengthsRoundTrip(lens[0], lens, more);
  }

  /** The decoder reads back the code lengths of every table. */
  lemma {:induction false} TablesRoundTrip(tables: seq<seq<nat>>, n: nat, more: seq<bool>)
    requires n > 0 && Lengths(tables, n)
    ensures ReadTables(TablesBits(tables) + more, |tables|, n) == Done(tables, more)
    decreases |tables|
  {
    hide ReadTable, TableBits;
    if tables == [] {
      assert [] + more == more;
    } else {
      FieldAndRest(TableBits(tables[0]), TablesBits(tables[1..]), more);
      TableRoundTrip(tables[0], TablesBits(tables[1..]) + more);
      TablesRoundTrip(tables[1..], n, more);
      assert tables == [tables[0]] + tables[1..];
    }
  }

  // Writing.

  lemma TwoBits()
    ensures BitsOf(2, 2) == [true, false] && BitsOf(2, 3) == [true, true]
  {
    assert BitsOf(0, 0) == [] && BitsOf(1, 1) == [true];
  }

  lemma Behind(s: seq<bool>, a: seq<bool>, b: seq<bool>)
    ensures s + (a + b) == s + a + b && s + [] == s
  {
  }

  lemma StepUp(s: seq<bool>, curr: nat, len: nat)
    requires curr < len
    ensures s + StepBits(curr, len) == s + BitsOf(2, 2) + StepBits(curr + 1, len)
  {
    TwoBits();
    Behind(s, [true, false], StepBits(curr + 1, len));
  }

  lemma StepDown(s: seq<bool>, curr: nat, len: nat)
    requires curr > len
    ensures s + StepBits(curr, len) == s + BitsOf(2, 3) + StepBits(curr - 1, len)
  {
    TwoBits();
    Behind(s, [true, true], StepBits(curr - 1, len));
  }

  lemma StepNone(s: seq<bool>, len: nat)
    ensures s + StepBits(len, len) == s
  {
  }

  /** Steps up, while there are any. */
  method WriteUp(w: Writer, curr0: nat, len: nat) returns (curr: nat)
    requires w.Valid() && |w.Written()| + |StepBits(curr0, len)| <= 8 * w.zbits.Length
    modifies w, w.zbits
    ensures w.Valid() && w.Written() + StepBits(curr, len) == old(w.Written()) + StepBits(curr0, len) && curr >= len
    ensures curr0 >= len ==> curr == curr0
  {
    assert Pow2(2) == 4;
    hide *;
    curr := curr0;
    ghost var full := w.Written() + StepBits(curr, len);
    while curr < len
      invariant w.Valid() && w.Written() + StepBits(curr, len) == full && (curr0 >= len ==> curr == curr0)
    {
      StepUp(w.Written(), curr, len);
      w.W(2, 2);
      curr := curr + 1;
    }
  }

  /** Steps down, while there are any. */
  method WriteDown(w: Writer, curr0: nat, len: nat) returns (curr: nat)
    requires w.Valid() && |w.Written()| + |StepBits(curr0, len)| <= 8 * w.zbits.Length && curr0 >= len
    modifies w, w.zbits
    ensures w.Valid() && w.Written() == old(w.Written()) + StepBits(curr0, len) && curr == len
  {
    assert Pow2(2) == 4;
    hide *;
    curr := curr0;
    ghost var full := w.Written() + StepBits(curr, len);
    while curr > len
      invariant w.Valid() && w.Written() + StepBits(curr, len) == full && curr >= len
    {
      StepDown(w.Written(), curr, len);
      w.W(2, 3);
      curr := curr - 1;
    }
    StepNone(w.Written(), len);
  }

  /** The steps to one length, and the end mark. */
  method WriteLength(w: Writer, curr0: nat, len: nat) returns (curr: nat)
    requires w.Valid() && |w.Written()| + |StepBits(curr0, len)| + 1 <= 8 * w.zbits.Length
    modifies w, w.zbits
    ensures w.Valid() && curr == len && w.Written() == old(w.Written()) + StepBits(curr0, len) + [false]
  {
    hide *;
    curr := WriteUp(w, curr0, len);
    curr := WriteDown(w, curr, len);
    WriteBit(w, false);
  }

  lemma DeltaNext(s: seq<bool>, curr: nat, lens: seq<nat>, i: nat)
    requires i < |lens|
    ensures s + DeltaBits(curr, lens[i..]) == s + StepBits(curr, lens[i]) + [false] + DeltaBits(lens[i], lens[i + 1..])
  {
    assert lens[i..][1..] == lens[i + 1..];
    var a, b := StepBits(curr, lens[i]), DeltaBits(lens[i], lens[i + 1..]);
    assert s + (a + [false] + b) == s + a + [false] + b;
  }

  lemma DeltaEnd(s: seq<bool>, curr: nat, lens: seq<nat>)
    ensures s + DeltaBits(curr, lens[|lens|..]) == s
  {
  }

  lemma TableStart(s: seq<bool>, lens: seq<nat>)
    requires lens != []
    ensures s + TableBits(lens) == s + BitsOf(5, lens[0]) + DeltaBits(lens[0], lens[0..])
  {
    assert lens[0..] == lens;
    var a, b := BitsOf(5, lens[0]), DeltaBits(lens[0], lens);
    assert s + (a + b) == s + a + b;
  }

  /** One coding table. */
  method WriteTable(w: Writer, len: array<nat>, alphaSize: nat)
    requires w.Valid() && 1 <= alphaSize <= len.Length && len as object != w.zbits && len[0] < 32
    requires |w.Written()| + |TableBits(len[..alphaSize])| <= 8 * w.zbits.Length
    modifies w, w.zbits
    ensures w.Valid() && w.Written() == old(w.Written()) + TableBits(len[..alphaSize])
  {
    assert Pow2(5) == 32;
    hide *;
    ghost var lens := len[..alphaSize];
    ghost var full := w.Written() + TableBits(lens);
    TableStart(w.Written(), lens);
    var curr := len[0];
    w.W(5, curr);
    var i := 0;
    while i < alphaSize
      invariant 0 <= i <= alphaSize && w.Valid() && len[..alphaSize] == lens
      invariant w.Written() + DeltaBits(curr, lens[i..]) == full
    {
      DeltaNext(w.Written(), curr, lens, i);
      assert lens[i] == len[i];
      curr := WriteLength(w, curr, len[i]);
      i := i + 1;
    }
    DeltaEnd(w.Written(), curr, lens);
  }

  /** The shortest and the longest length. */
  method LengthRange(len: array<nat>, alphaSize: nat) returns (minLen: nat, maxLen: nat)
    requires 1 <= alphaSize <= len.Length && forall i :: 0 <= i < alphaSize ==> 1 <= len[i] <= 20
    ensures 1 <= minLen <= maxLen <= 20 && minLen in len[..alphaSize]
    ensures forall i :: 0 <= i < alphaSize ==> minLen <= len[i] <= maxLen
  {
    minLen, maxLen := 32, 0;
    var i := 0;
    while i < alphaSize
      invariant 0 <= i <= alphaSize && maxLen <= 20
      invariant i == 0 ==> minLen == 32 && maxLen == 0
      invariant i > 0 ==> 1 <= minLen <= maxLen && minLen in len[..i]
      invariant forall k :: 0 <= k < i ==> minLen <= len[k] <= maxLen
    {
      assert len[..i + 1] == len[..i] + [len[i]];
      if len[i] > maxLen { maxLen := len[i]; }
      if len[i] < minLen { minLen := len[i]; }
      i := i + 1;
    }
  }
}
