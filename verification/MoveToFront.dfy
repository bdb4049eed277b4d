/**
 Move-to-front coding with bijective base-2 run counts, as functions: what generateMTFValues
 (dep/bzip2/compress.c) emits, and what BZ2_decompress (dep/bzip2/decompress.c) makes of
 one symbol after the other.
 */
module MoveToFront {
  import opened Bits

  const BZ_RUNA := 0
  const BZ_RUNB := 1
  /** The run weight at which the decoder gives up. */
  const RUN_GUARD := 2 * 1024 * 1024

  function ToFront(yy: seq<byte>, j: nat): (r: seq<byte>)
    requires j < |yy|
    ensures |r| == |yy|
  {
    [yy[j]] + yy[..j] + yy[j + 1..]
  }

  /** Where b first stands in the list. */
  function Position(yy: seq<byte>, b: byte): (j: nat)
    requires b in yy
    ensures j < |yy| && yy[j] == b && b !in yy[..j]
  {
    if yy[0] == b then 0 else 1 + Position(yy[1..], b)
  }

  /** The list 0, 1, 2... that coding starts with. */
  function FirstList(n: nat): (yy: seq<byte>)
    requires n <= 256
    ensures |yy| == n && forall i :: 0 <= i < n ==> yy[i] == i
  {
    seq(n, i requires 0 <= i < n => i as byte)
  }

  lemma FirstIs(yy: seq<byte>, b: byte, j: nat)
    requires j < |yy| && yy[j] == b && b !in yy[..j]
    ensures b in yy && Position(yy, b) == j
  {
    var p := Position(yy, b);
  }

  /** The list with its first k elements moved up by one; the front place is still to be filled. */
  ghost predicate Sliding(yy: seq<byte>, now: seq<byte>, k: nat) {
    && |now| == |yy| && k < |yy|
    && (forall i :: 1 <= i <= k ==> now[i] == yy[i - 1])
    && (forall i :: k < i < |yy| ==> now[i] == yy[i])
  }

  lemma SlidingDone(yy: seq<byte>, now: seq<byte>, k: nat, m: nat)
    requires Sliding(yy, now, k) && now[0] == yy[k] && k < m <= |yy|
    ensures now[..m] == ToFront(yy[..m], k)
  {
    var t := ToFront(yy[..m], k);
    forall i | 0 <= i < m
      ensures now[i] == t[i]
    {
      if i > k { assert t[i] == yy[..m][k + 1..][i - k - 1]; }
    }
  }

  function Repeat(b: byte, n: nat): (r: seq<byte>)
    ensures |r| == n && forall i :: 0 <= i < n ==> r[i] == b
  {
    seq(n, _ => b)
  }

  // What the compressor emits.

  /** A run of z equal characters, least significant digit first; RUNA counts 1 and RUNB 2. */
  function RunDigits(z: nat): (d: seq<nat>)
    ensures |d| <= z && forall i :: 0 <= i < |d| ==> d[i] <= BZ_RUNB
  {
    if z == 0 then [] else [if z % 2 == 1 then BZ_RUNA else BZ_RUNB] + RunDigits((z - 1) / 2)
  }

  /** The symbols for a column, with z characters equal to the front of the list pending. */
  function Emit(yy: seq<byte>, col: seq<byte>, z: nat): (syms: seq<nat>)
    requires yy != [] && forall i :: 0 <= i < |col| ==> col[i] in yy
    ensures |syms| <= z + |col|
    ensures forall i :: 0 <= i < |syms| ==> syms[i] <= |yy|
    decreases col
  {
    if col == [] then RunDigits(z)
    else if yy[0] == col[0] then Emit(yy, col[1..], z + 1)
    else
      ToFrontKeeps(yy, Position(yy, col[0]));
      RunDigits(z) + [Position(yy, col[0]) + 1] + Emit(ToFront(yy, Position(yy, col[0])), col[1..], 0)
  }

  lemma ToFrontKeeps(yy: seq<byte>, j: nat)
    requires j < |yy|
    ensures forall b :: b in yy <==> b in ToFront(yy, j)
  {
    assert yy == yy[..j] + [yy[j]] + yy[j + 1..];
  }

  // What the decompressor does.

  /** The character that number c stands for. */
  function At(unseq: seq<byte>, c: nat): byte {
    if c < |unseq| then unseq[c] else 0
  }

  /** The list, the column so far, and the run being counted: its weight n is 0 outside runs. */
  datatype Mtf = Mtf(yy: seq<byte>, out: seq<byte>, es: int, n: nat)

  datatype Outcome = More(s: Mtf) | End(out: seq<byte>) | Bad

  /** One symbol. A run is written out when the first symbol after it has been seen. No symbol is above eob. */
  function Step(s: Mtf, sym: nat, eob: nat, unseq: seq<byte>, max: nat): (o: Outcome)
    requires |s.yy| == 256 && eob <= 257
    ensures o.More? ==> |o.s.yy| == 256
  {
    if sym > eob then Bad
    else if sym <= BZ_RUNB then
      var (es, n) := if s.n == 0 then (-1, 1) else (s.es, s.n);
      if n >= RUN_GUARD then Bad
      else More(Mtf(s.yy, s.out, es + (if sym == BZ_RUNA then n else 2 * n), 2 * n))
    else
      var out := if s.n == 0 || s.es < 0 then s.out else s.out + Repeat(At(unseq, s.yy[0]), s.es + 1);
      if |out| > max then Bad
      else if sym == eob then End(out)
      else if |out| >= max then Bad
      else More(Mtf(ToFront(s.yy, sym - 1), out + [At(unseq, s.yy[sym - 1])], 0, 0))
  }

  function Steps(s: Mtf, syms: seq<nat>, eob: nat, unseq: seq<byte>, max: nat): Outcome
    requires |s.yy| == 256 && eob <= 257
    decreases |syms|
  {
    if syms == [] then More(s)
    else
      match Step(s, syms[0], eob, unseq, max)
      case More(s') => Steps(s', syms[1..], eob, unseq, max)
      case o => o
  }

  function Mapped(col: seq<byte>, unseq: seq<byte>): (r: seq<byte>)
    ensures |r| == |col| && forall i :: 0 <= i < |col| ==> r[i] == At(unseq, col[i])
  {
    seq(|col|, i requires 0 <= i < |col| => At(unseq, col[i]))
  }

  // The round trip.

  /** What the digits of a run of z add up to, read from weight n on. */
  ghost function Worth(n: nat, z: nat): nat
    decreases z
  {
    if z == 0 then 0 else (if z % 2 == 1 then n else 2 * n) + Worth(2 * n, (z - 1) / 2)
  }

  lemma {:induction false} WorthIsTimes(n: nat, z: nat)
    ensures Worth(n, z) == n * z
    decreases z
  {
    if z > 0 {
      var k := (z - 1) / 2;
      WorthIsTimes(2 * n, k);
      DoubledTimes(n, k);
      assert z == 2 * k + 1 || z == 2 * k + 2;
    }
  }

  lemma DoubledTimes(n: nat, k: nat)
    ensures 2 * n * k == n * (2 * k)
    ensures n * (2 * k + 1) == n * (2 * k) + n && n * (2 * k + 2) == n * (2 * k) + 2 * n
  {
  }

  /** The weights met while reading the digits stay below the guard. */
  ghost predicate Guarded(n: nat, z: nat)
    decreases z
  {
    z == 0 || (n < RUN_GUARD && Guarded(2 * n, (z - 1) / 2))
  }

  lemma {:induction false} ShortRunGuarded(n: nat, k: nat, z: nat)
    requires n <= Pow2(k) && k <= 21 && z < Pow2(21 - k)
    ensures Guarded(n, z)
    decreases z
  {
    if z > 0 {
      Pow2Monotone(k, 20);
      assert Pow2(10) == 1024 && Pow2(20) == 1024 * 1024;
      ShortRunGuarded(2 * n, k + 1, (z - 1) / 2);
    }
  }

  lemma {:induction false} RunBack(s: Mtf, z: nat, more: seq<nat>, eob: nat, unseq: seq<byte>, max: nat) returns (n: nat)
    requires |s.yy| == 256 && 1 <= eob <= 257 && s.n >= 1 && Guarded(s.n, z)
    ensures n >= s.n
    ensures Steps(s, RunDigits(z) + more, eob, unseq, max)
         == Steps(Mtf(s.yy, s.out, s.es + Worth(s.n, z), n), more, eob, unseq, max)
    decreases z
  {
    if z == 0 {
      n := s.n;
      assert RunDigits(z) + more == more;
    } else {
      var digits := RunDigits(z) + more;
      var s' := Mtf(s.yy, s.out, s.es + (if z % 2 == 1 then s.n else 2 * s.n), 2 * s.n);
      assert digits[0] == (if z % 2 == 1 then BZ_RUNA else BZ_RUNB) && digits[1..] == RunDigits((z - 1) / 2) + more;
      assert Step(s, digits[0], eob, unseq, max) == More(s');
      n := RunBack(s', (z - 1) / 2, more, eob, unseq, max);
    }
  }

  /** A whole run: afterwards the decoder has z characters pending. */
  lemma RunPending(s: Mtf, z: nat, more: seq<nat>, eob: nat, unseq: seq<byte>, max: nat) returns (s': Mtf)
    requires |s.yy| == 256 && 1 <= eob <= 257 && s.n == 0 && z < RUN_GUARD
    ensures s'.yy == s.yy && s'.out == s.out && if z == 0 then s'.n == 0 else s'.n > 0 && s'.es + 1 == z
    ensures Steps(s, RunDigits(z) + more, eob, unseq, max) == Steps(s', more, eob, unseq, max)
  {
    if z == 0 {
      assert RunDigits(0) + more == more;
      s' := s;
    } else {
      var s1 := Mtf(s.yy, s.out, -1, 1);
      assert Pow2(7) == 128 && Pow2(14) == 16384 && Pow2(21) == RUN_GUARD;
      ShortRunGuarded(1, 0, z);
      WorthIsTimes(1, z);
      var n := RunBack(s1, z, more, eob, unseq, max);
      s' := Mtf(s.yy, s.out, z - 1, n);
      var digits := RunDigits(z) + more;
      assert Step(s, digits[0], eob, unseq, max) == Step(s1, digits[0], eob, unseq, max);
    }
  }

  /** The decoder's list starts with the encoder's; all characters of the column are in it; there is room. */
  ghost predicate InStep(yy: seq<byte>, col: seq<byte>, z: nat, s: Mtf, unseq: seq<byte>, max: nat) {
    && |s.yy| == 256 && 1 <= |yy| <= 256 && s.yy[..|yy|] == yy
    && (forall i :: 0 <= i < |col| ==> col[i] in yy)
    && s.n == 0 && |s.out| + z + |col| <= max < RUN_GUARD
  }

  /**
   The decoder undoes the encoder. Its list may go on behind the encoder's: it starts with all 256 values,
   the encoder's with the values in use.
   */
  lemma {:induction false} MtfRoundTrip(yy: seq<byte>, col: seq<byte>, z: nat, s: Mtf, unseq: seq<byte>, max: nat)
    requires InStep(yy, col, z, s, unseq, max)
    ensures Steps(s, Emit(yy, col, z) + [|yy| + 1], |yy| + 1, unseq, max)
         == End(s.out + Repeat(At(unseq, yy[0]), z) + Mapped(col, unseq))
    decreases col
  {
    hide *;
    var eob := |yy| + 1;
    StepSizes(yy, col, z, s, unseq, max);
    if col == [] {
      LastRun(yy, z, s, unseq, max);
    } else if yy[0] == col[0] {
      EmitRun(yy, col, z);
      MtfRoundTrip(yy, col[1..], z + 1, s, unseq, max);
      RunGrows(yy[0], col, z, s.out, unseq);
    } else {
      var more := EmitFront(yy, col, z);
      var s1 := RunPending(s, z, more, eob, unseq, max);
      var s2 := FrontStep(yy, col, z, s, s1, unseq, max);
      FirstStep(s1, more, eob, unseq, max, s2);
      MtfRoundTrip(ToFront(yy, Position(yy, col[0])), col[1..], 0, s2, unseq, max);
      FrontOut(yy, col, z, s.out, s2.out, unseq);
    }
  }

  lemma StepSizes(yy: seq<byte>, col: seq<byte>, z: nat, s: Mtf, unseq: seq<byte>, max: nat)
    requires InStep(yy, col, z, s, unseq, max)
    ensures |s.yy| == 256 && 1 <= |yy| <= 256 && s.n == 0 && z < RUN_GUARD
    ensures forall i :: 0 <= i < |col| ==> col[i] in yy
    ensures col != [] && yy[0] == col[0] ==> InStep(yy, col[1..], z + 1, s, unseq, max)
  {
  }

  lemma FirstStep(s: Mtf, syms: seq<nat>, eob: nat, unseq: seq<byte>, max: nat, s': Mtf)
    requires |s.yy| == 256 && eob <= 257 && syms != [] && |s'.yy| == 256
    requires Step(s, syms[0], eob, unseq, max) == More(s')
    ensures Steps(s, syms, eob, unseq, max) == Steps(s', syms[1..], eob, unseq, max)
  {
  }

  lemma LastRun(yy: seq<byte>, z: nat, s: Mtf, unseq: seq<byte>, max: nat)
    requires InStep(yy, [], z, s, unseq, max)
    ensures Steps(s, Emit(yy, [], z) + [|yy| + 1], |yy| + 1, unseq, max)
         == End(s.out + Repeat(At(unseq, yy[0]), z) + Mapped([], unseq))
  {
    var eob := |yy| + 1;
    var s' := RunPending(s, z, [eob], eob, unseq, max);
    assert [eob][0] == eob;
    assert s.yy[0] == s.yy[..|yy|][0];
    assert s.out + Repeat(At(unseq, yy[0]), z) + Mapped([], unseq) == s.out + Repeat(At(unseq, yy[0]), z);
    if z == 0 { assert s.out + Repeat(At(unseq, yy[0]), z) == s.out; }
  }

  lemma EmitRun(yy: seq<byte>, col: seq<byte>, z: nat)
    requires yy != [] && col != [] && (forall i :: 0 <= i < |col| ==> col[i] in yy) && yy[0] == col[0]
    ensures Emit(yy, col, z) == Emit(yy, col[1..], z + 1)
  {
  }

  lemma EmitFront(yy: seq<byte>, col: seq<byte>, z: nat) returns (more: seq<nat>)
    requires yy != [] && col != [] && (forall i :: 0 <= i < |col| ==> col[i] in yy) && yy[0] != col[0]
    ensures forall i :: 0 <= i < |col| - 1 ==> col[1..][i] in ToFront(yy, Position(yy, col[0]))
    ensures Emit(yy, col, z) + [|yy| + 1] == RunDigits(z) + more && more != [] && more[0] == Position(yy, col[0]) + 1
    ensures more[1..] == Emit(ToFront(yy, Position(yy, col[0])), col[1..], 0) + [|yy| + 1]
  {
    var j := Position(yy, col[0]);
    ToFrontKeeps(yy, j);
    var rest := Emit(ToFront(yy, j), col[1..], 0);
    more := [j + 1] + (rest + [|yy| + 1]);
    assert Emit(yy, col, z) + [|yy| + 1] == RunDigits(z) + more;
  }

  lemma RunGrows(b: byte, col: seq<byte>, z: nat, out: seq<byte>, unseq: seq<byte>)
    requires col != [] && col[0] == b
    ensures out + Repeat(At(unseq, b), z + 1) + Mapped(col[1..], unseq) == out + Repeat(At(unseq, b), z) + Mapped(col, unseq)
  {
  }

  /** The symbol after a run writes the run out, then its own character. */
  lemma FrontStep(yy: seq<byte>, col: seq<byte>, z: nat, s: Mtf, s1: Mtf, unseq: seq<byte>, max: nat) returns (s2: Mtf)
    requires InStep(yy, col, z, s, unseq, max) && col != [] && yy[0] != col[0]
    requires s1.yy == s.yy && s1.out == s.out && if z == 0 then s1.n == 0 else s1.n > 0 && s1.es + 1 == z
    ensures Step(s1, Position(yy, col[0]) + 1, |yy| + 1, unseq, max) == More(s2)
    ensures s2.out == s.out + Repeat(At(unseq, yy[0]), z) + [At(unseq, col[0])]
    ensures InStep(ToFront(yy, Position(yy, col[0])), col[1..], 0, s2, unseq, max)
  {
    var j := Position(yy, col[0]);
    ToFrontKeeps(yy, j);
    var out := s.out + Repeat(At(unseq, yy[0]), z);
    if z == 0 { assert out == s.out; }
    assert s.yy[j] == s.yy[..|yy|][j] && s.yy[0] == s.yy[..|yy|][0];
    s2 := Mtf(ToFront(s.yy, j), out + [At(unseq, col[0])], 0, 0);
    assert ToFront(s.yy, j)[..|yy|] == ToFront(yy, j);
  }

  lemma FrontOut(yy: seq<byte>, col: seq<byte>, z: nat, out: seq<byte>, out2: seq<byte>, unseq: seq<byte>)
    requires col != [] && yy != []
    requires out2 == out + Repeat(At(unseq, yy[0]), z) + [At(unseq, col[0])]
    ensures forall b: byte :: out2 + Repeat(b, 0) + Mapped(col[1..], unseq) == out + Repeat(At(unseq, yy[0]), z) + Mapped(col, unseq)
  {
    assert Mapped(col, unseq) == [At(unseq, col[0])] + Mapped(col[1..], unseq);
  }
}
