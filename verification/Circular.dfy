/** Circular buffers of `arm_math.h`. The Q15 and Q7 functions differ only in the element type. */
module Circular {
  import Usb

  // ---------------------------------------------------------------- offsets and buffers, as functions

  /** One step of an offset: the length is subtracted once if it is reached. */
  function Next(offset: int, inc: int, l: nat): (r: int)
    ensures 0 <= offset < l && 0 <= inc <= l ==> 0 <= r < l
  {
    if offset + inc >= l then offset + inc - l else offset + inc
  }

  /** The offset after n steps. */
  function Advance(offset: int, inc: int, l: nat, n: nat): (r: int)
    ensures 0 <= offset < l && 0 <= inc <= l ==> 0 <= r < l
  {
    if n == 0 then offset else Next(Advance(offset, inc, l, n - 1), inc, l)
  }

  predicate OffsetsInside(offset: int, inc: int, l: nat, n: nat) {
    forall k: nat :: k < n ==> 0 <= Advance(offset, inc, l, k) < l
  }

  /** The buffer after the first n samples were written. */
  function Written<T>(c: seq<T>, l: nat, offset: int, inc: int, xs: seq<T>, n: nat): (r: seq<T>)
    requires l <= |c| && OffsetsInside(offset, inc, l, n) && n <= |xs|
    ensures |r| == |c|
  {
    if n == 0 then c else Written(c, l, offset, inc, xs, n - 1)[Advance(offset, inc, l, n - 1) := xs[n - 1]]
  }

  /** The n samples read from here on. */
  function ReadOut<T>(c: seq<T>, l: nat, offset: int, inc: int, n: nat): (r: seq<T>)
    requires l <= |c| && OffsetsInside(offset, inc, l, n)
    ensures |r| == n
  {
    if n == 0 then [] else ReadOut(c, l, offset, inc, n - 1) + [c[Advance(offset, inc, l, n - 1)]]
  }

  /** Where sample k comes from: the source pointer moves by a signed increment. */
  function SrcAt(first: int, srcInc: int, k: nat): int {
    first + k * srcInc
  }

  predicate SrcInside(first: int, srcInc: int, n: nat, size: nat) {
    forall k: nat :: k < n ==> 0 <= SrcAt(first, srcInc, k) < size
  }

  /** The n samples a write takes from the source. */
  function Strided<T>(src: seq<T>, first: int, srcInc: int, n: nat): (r: seq<T>)
    requires SrcInside(first, srcInc, n, |src|)
    ensures |r| == n
  {
    seq(n, k requires 0 <= k < n => src[SrcAt(first, srcInc, k)])
  }

  lemma ModStep(x: nat, a: nat, l: nat, inc: nat)
    requires 0 < l && a < l && inc <= l && x % l == a
    ensures (x + inc) % l == Next(a, inc, l)
  {
    var q := x / l;
    assert x == q * l + a;
    var r := Next(a, inc, l);
    var q' := if a + inc >= l then q + 1 else q;
    assert q' * l == if a + inc >= l then q * l + l else q * l;
    assert x + inc == q' * l + r;
    Usb.ModulusUnique(x + inc, l, q', r);
  }

  /** The conditional subtraction in each step is arithmetic modulo the length. */
  lemma {:induction false} AdvanceIsModulo(offset: nat, inc: nat, l: nat, n: nat)
    requires offset < l && inc <= l
    ensures Advance(offset, inc, l, n) == (offset + n * inc) % l
  {
    if n == 0 {
      Usb.ModulusUnique(offset, l, 0, offset);
    } else {
      AdvanceIsModulo(offset, inc, l, n - 1);
      assert offset + n * inc == offset + (n - 1) * inc + inc;
      ModStep(offset + (n - 1) * inc, Advance(offset, inc, l, n - 1), l, inc);
    }
  }

  lemma {:induction false} Sinks(offset: nat, inc: int, l: nat, n: nat)
    requires offset < l && inc < 0
    ensures Advance(offset, inc, l, n) == offset + n * inc <= offset
  {
    if n > 0 {
      Sinks(offset, inc, l, n - 1);
      assert n * inc == (n - 1) * inc + inc;
    }
  }

  lemma {:induction false} Rises(offset: nat, inc: int, l: nat, n: nat)
    requires offset < l < inc
    ensures Advance(offset, inc, l, n) == offset + n * (inc - l) >= offset + n
  {
    if n > 0 {
      Rises(offset, inc, l, n - 1);
      assert n * (inc - l) == (n - 1) * (inc - l) + (inc - l);
    }
  }

  ghost predicate AlwaysInside(offset: int, inc: int, l: nat) {
    forall n: nat :: 0 <= Advance(offset, inc, l, n) < l
  }

  /** The test in each step keeps every block inside the buffer if and only if the increment is between 0 and
      the length; a negative one runs off the front, a larger one off the end. */
  lemma OffsetTestExact(offset: nat, inc: int, l: nat)
    requires offset < l
    ensures AlwaysInside(offset, inc, l) <==> 0 <= inc <= l
  {
    if inc < 0 {
      Sinks(offset, inc, l, offset + 1);
      assert (offset + 1) * inc <= -(offset + 1) by {
        assert (offset + 1) * (-1 - inc) >= 0;
      }
      assert !(0 <= Advance(offset, inc, l, offset + 1));
    } else if inc > l {
      Rises(offset, inc, l, l);
      assert !(Advance(offset, inc, l, l) < l);
    }
  }

  // ---------------------------------------------------------------- the functions

  /** `arm_circularWrite_q15` and `_q7`; the write offset is kept in 16 bits. */
  method CircularWrite<T>(circ: array<T>, l: nat, writeOffset: nat, inc: int,
                          src: array<T>, first: int, srcInc: int, blockSize: nat)
      returns (offset: nat)
    requires circ != src && l <= circ.Length && OffsetsInside(writeOffset, inc, l, blockSize)
    requires SrcInside(first, srcInc, blockSize, src.Length)
    modifies circ
    ensures offset == Advance(writeOffset, inc, l, blockSize) % OFFSETS
    ensures writeOffset < l && 0 <= inc <= l ==> offset == (writeOffset + blockSize * inc) % l % OFFSETS
    ensures circ[..] == Written(old(circ[..]), l, writeOffset, inc, Strided(src[..], first, srcInc, blockSize), blockSize)
  {
    var wOffset, pos, i := writeOffset, first, blockSize;
    while i > 0
      invariant 0 <= i <= blockSize && pos == SrcAt(first, srcInc, blockSize - i)
      invariant wOffset == Advance(writeOffset, inc, l, blockSize - i)
      invariant circ[..] == Written(old(circ[..]), l, writeOffset, inc,
                                    Strided(src[..], first, srcInc, blockSize), blockSize - i)
    {
      circ[wOffset] := src[pos];
      NextSample(first, srcInc, blockSize - i);
      pos := pos + srcInc;
      wOffset := wOffset + inc;
      if wOffset >= l {
        wOffset := wOffset - l;
      }
      i := i - 1;
    }
    if writeOffset < l && 0 <= inc <= l {
      AdvanceIsModulo(writeOffset, inc, l, blockSize);
    }
    offset := wOffset % OFFSETS;
  }

  lemma NextSample(first: int, srcInc: int, k: nat)
    ensures SrcAt(first, srcInc, k + 1) == SrcAt(first, srcInc, k) + srcInc
  {
    assert (k + 1) * srcInc == k * srcInc + srcInc;
  }

  // ---------------------------------------------------------------- the destination of a read

  /** The destination position after n samples: it wraps only when it reaches the end exactly. */
  function DstAfter(pos: int, dstInc: int, dstLength: nat, n: nat): int {
    if n == 0 then pos
    else
      var p := DstAfter(pos, dstInc, dstLength, n - 1) + dstInc;
      if p == dstLength then 0 else p
  }

  predicate DstInside(pos: int, dstInc: int, dstLength: nat, n: nat) {
    forall k: nat :: k < n ==> 0 <= DstAfter(pos, dstInc, dstLength, k) < dstLength
  }

  /** The destination after the first n samples were stored. */
  function Stored<T>(d: seq<T>, pos: int, dstInc: int, xs: seq<T>, n: nat): (r: seq<T>)
    requires n <= |xs| && DstInside(pos, dstInc, |d|, n)
    ensures |r| == |d|
  {
    if n == 0 then d else Stored(d, pos, dstInc, xs, n - 1)[DstAfter(pos, dstInc, |d|, n - 1) := xs[n - 1]]
  }

  /** `arm_circularRead_q15` and `_q7`, for a block whose samples all go into the destination. */
  method CircularRead<T>(circ: array<T>, l: nat, readOffset: int, inc: int,
                         dst: array<T>, first: int, dstInc: int, blockSize: nat)
      returns (offset: int)
    requires circ != dst && l <= circ.Length && OffsetsInside(readOffset, inc, l, blockSize)
    requires DstInside(first, dstInc, dst.Length, blockSize)
    modifies dst
    ensures offset == Advance(readOffset, inc, l, blockSize)
    ensures 0 <= readOffset < l && 0 <= inc <= l ==> offset == (readOffset + blockSize * inc) % l
    ensures dst[..] == Stored(old(dst[..]), first, dstInc,
                              ReadOut(circ[..], l, readOffset, inc, blockSize), blockSize)
  {
    var rOffset, pos, i := readOffset, first, blockSize;
    while i > 0
      invariant 0 <= i <= blockSize && pos == DstAfter(first, dstInc, dst.Length, blockSize - i)
      invariant rOffset == Advance(readOffset, inc, l, blockSize - i)
      invariant dst[..] == Stored(old(dst[..]), first, dstInc,
                                  ReadOut(circ[..], l, readOffset, inc, blockSize), blockSize - i)
    {
      ReadOutAt(circ[..], l, readOffset, inc, blockSize, blockSize - i);
      dst[pos] := circ[rOffset];
      pos := pos + dstInc;
      if pos == dst.Length {
        pos := 0;
      }
      rOffset := rOffset + inc;
      if rOffset >= l {
        rOffset := rOffset - l;
      }
      i := i - 1;
    }
    if 0 <= readOffset < l && 0 <= inc <= l {
      AdvanceIsModulo(readOffset, inc, l, blockSize);
    }
    offset := rOffset;
  }

  /** Until the end is near, the position just grows. */
  lemma {:induction false} Walk(pos: nat, d: nat, len: nat, k: nat)
    requires pos + k * d < len
    ensures DstAfter(pos, d, len, k) == pos + k * d
  {
    if k == 0 {
      assert k * d == 0;
    } else {
      assert k * d == (k - 1) * d + d;
      Walk(pos, d, len, k - 1);
    }
  }

  lemma {:induction false} Resume(pos: int, d: int, len: nat, k: nat, n: nat)
    ensures DstAfter(pos, d, len, k + n) == DstAfter(DstAfter(pos, d, len, k), d, len, n)
  {
    if n > 0 {
      Resume(pos, d, len, k, n - 1);
    }
  }

  /** The first time the end is met or passed. */
  lemma MeetsOrPasses(pos: nat, d: nat, len: nat) returns (n: nat)
    requires pos < len && d > 0
    ensures n > 0
    ensures if (len - pos) % d == 0 then DstAfter(pos, d, len, n) == 0 else DstAfter(pos, d, len, n) > len
  {
    var k, rest := (len - pos) / d, (len - pos) % d;
    assert len - pos == k * d + rest;
    if rest != 0 {
      Walk(pos, d, len, k);
      n := k + 1;
    } else {
      assert k != 0 by {
        assert 0 * d == 0;
      }
      assert k * d == (k - 1) * d + d;
      Walk(pos, d, len, k - 1);
      n := k;
    }
  }

  /** Steps counted instead of positions, for a destination of whole steps. */
  function SlotAfter(j: nat, slots: nat, n: nat): (i: nat)
    requires j < slots
    ensures i < slots
  {
    if n == 0 then j
    else
      var i := SlotAfter(j, slots, n - 1) + 1;
      if i == slots then 0 else i
  }

  lemma AtLeast(n: nat, size: nat)
    requires n >= 1
    ensures n * size >= size
  {
    assert (n - 1) * size >= 0;
  }

  lemma SlotStep(i: nat, slots: nat, d: nat)
    requires i < slots && d > 0
    ensures i * d < slots * d && (i + 1) * d == i * d + d
    ensures i * d + d == slots * d <==> i + 1 == slots
  {
    AtLeast(slots - i, d);
    if i + 1 < slots {
      AtLeast(slots - (i + 1), d);
    }
  }

  lemma {:induction false} WholeSteps(d: nat, slots: nat, j: nat, n: nat)
    requires j < slots && d > 0
    ensures DstAfter(j * d, d, slots * d, n) == SlotAfter(j, slots, n) * d < slots * d
  {
    SlotStep(SlotAfter(j, slots, n), slots, d);
    if n > 0 {
      WholeSteps(d, slots, j, n - 1);
      SlotStep(SlotAfter(j, slots, n - 1), slots, d);
    }
  }

  predicate Aligned(pos: nat, d: nat, len: nat)
    requires d > 0
  {
    pos % d == 0 && len % d == 0
  }

  lemma Smaller(j: nat, slots: nat, d: nat)
    requires j * d < slots * d
    ensures j < slots
  {
    assert (slots - j) * d > 0;
  }

  /** Aligned positions stay inside, however long the block. */
  lemma AlignedStays(pos: nat, d: nat, len: nat, n: nat)
    requires pos < len && d > 0 && Aligned(pos, d, len)
    ensures 0 <= DstAfter(pos, d, len, n) < len
  {
    var j, slots := pos / d, len / d;
    assert pos == j * d && len == slots * d;
    Smaller(j, slots, d);
    WholeSteps(d, slots, j, n);
  }

  lemma RestOfDifference(pos: nat, d: nat, len: nat)
    requires pos < len && d > 0 && len % d == 0 && (len - pos) % d == 0
    ensures pos % d == 0
  {
    var a, b := len / d, (len - pos) / d;
    assert len == a * d && len - pos == b * d;
    assert pos == (a - b) * d;
    Usb.ModulusUnique(pos, d, a - b, 0);
  }

  /** Other positions leave the destination in a long enough block. */
  lemma OthersLeave(pos: nat, d: nat, len: nat) returns (n: nat)
    requires pos < len && d > 0 && !Aligned(pos, d, len)
    ensures DstAfter(pos, d, len, n) > len
  {
    n := MeetsOrPasses(pos, d, len);
    if (len - pos) % d == 0 {
      if len % d == 0 {
        RestOfDifference(pos, d, len);
      }
      var m := MeetsOrPasses(0, d, len);
      Resume(pos, d, len, n, m);
      n := n + m;
    }
  }

  ghost predicate StaysInside(pos: nat, d: nat, len: nat) {
    forall n: nat :: 0 <= DstAfter(pos, d, len, n) < len
  }

  /** The comparison with the end keeps every block inside the destination if and only if both the first
      position and the length are whole numbers of steps. */
  lemma EndTestExact(pos: nat, d: nat, len: nat)
    requires pos < len && d > 0
    ensures StaysInside(pos, d, len) <==> Aligned(pos, d, len)
  {
    if Aligned(pos, d, len) {
      forall n: nat
        ensures 0 <= DstAfter(pos, d, len, n) < len
      {
        AlignedStays(pos, d, len, n);
      }
    } else {
      var n := OthersLeave(pos, d, len);
      assert !(0 <= DstAfter(pos, d, len, n) < len);
    }
  }

  /** Three elements, two at a time: a block of two is stored inside, a third sample goes past the end. */
  lemma EndTestFails()
    ensures DstInside(0, 2, 3, 2) && DstAfter(0, 2, 3, 2) == 4
  {
    assert DstAfter(0, 2, 3, 0) == 0;
    assert DstAfter(0, 2, 3, 1) == 2;
  }

  lemma {:induction false} ReadOutAt<T>(c: seq<T>, l: nat, offset: int, inc: int, n: nat, k: nat)
    requires l <= |c| && OffsetsInside(offset, inc, l, n) && k < n
    ensures ReadOut(c, l, offset, inc, n)[k] == c[Advance(offset, inc, l, k)]
  {
    if k < n - 1 {
      ReadOutAt(c, l, offset, inc, n - 1, k);
    }
  }

  // ---------------------------------------------------------------- what a block leaves in memory

  /** A slot of the destination holds the last sample that went there. */
  lemma {:induction false} StoredAt<T>(d: seq<T>, pos: int, dstInc: int, xs: seq<T>, n: nat, k: nat)
    requires k < n <= |xs| && DstInside(pos, dstInc, |d|, n)
    requires forall j: nat :: k < j < n ==> DstAfter(pos, dstInc, |d|, j) != DstAfter(pos, dstInc, |d|, k)
    ensures Stored(d, pos, dstInc, xs, n)[DstAfter(pos, dstInc, |d|, k)] == xs[k]
  {
    if k < n - 1 {
      StoredAt(d, pos, dstInc, xs, n - 1, k);
    }
  }

  /** The slots where none went are as they were. */
  lemma {:induction false} StoredElsewhere<T>(d: seq<T>, pos: int, dstInc: int, xs: seq<T>, n: nat, i: nat)
    requires n <= |xs| && DstInside(pos, dstInc, |d|, n) && i < |d|
    requires forall j: nat :: j < n ==> DstAfter(pos, dstInc, |d|, j) != i
    ensures Stored(d, pos, dstInc, xs, n)[i] == d[i]
  {
    if n > 0 {
      StoredElsewhere(d, pos, dstInc, xs, n - 1, i);
    }
  }

  /** The same for the circular buffer. */
  lemma {:induction false} WrittenAt<T>(c: seq<T>, l: nat, offset: int, inc: int, xs: seq<T>, n: nat, k: nat)
    requires l <= |c| && OffsetsInside(offset, inc, l, n) && k < n <= |xs|
    requires forall j: nat :: k < j < n ==> Advance(offset, inc, l, j) != Advance(offset, inc, l, k)
    ensures Written(c, l, offset, inc, xs, n)[Advance(offset, inc, l, k)] == xs[k]
  {
    if k < n - 1 {
      WrittenAt(c, l, offset, inc, xs, n - 1, k);
    }
  }

  lemma {:induction false} WrittenElsewhere<T>(c: seq<T>, l: nat, offset: int, inc: int, xs: seq<T>, n: nat, i: nat)
    requires l <= |c| && OffsetsInside(offset, inc, l, n) && n <= |xs| && i < |c|
    requires forall j: nat :: j < n ==> Advance(offset, inc, l, j) != i
    ensures Written(c, l, offset, inc, xs, n)[i] == c[i]
  {
    if n > 0 {
      WrittenElsewhere(c, l, offset, inc, xs, n - 1, i);
    }
  }

  lemma {:induction false} UnitSteps(len: nat, k: nat)
    requires k < len
    ensures DstAfter(0, 1, len, k) == k
  {
    if k > 0 {
      UnitSteps(len, k - 1);
    }
  }

  /** Sample by sample from its start: the destination holds the block, and behind it what it held before. */
  lemma BlockStored<T>(d: seq<T>, xs: seq<T>)
    requires |xs| <= |d|
    ensures DstInside(0, 1, |d|, |xs|)
    ensures Stored(d, 0, 1, xs, |xs|) == xs + d[|xs|..]
  {
    forall k: nat | k < |d| ensures DstAfter(0, 1, |d|, k) == k {
      UnitSteps(|d|, k);
    }
    var r := Stored(d, 0, 1, xs, |xs|);
    forall i: nat | i < |d| ensures r[i] == (xs + d[|xs|..])[i] {
      if i < |xs| {
        StoredAt(d, 0, 1, xs, |xs|, i);
      } else {
        StoredElsewhere(d, 0, 1, xs, |xs|, i);
      }
    }
  }

  lemma Apart(x: nat, y: nat, l: nat)
    requires 0 < y - x < l
    ensures x % l != y % l
  {
    var d := y / l - x / l;
    assert y - x == d * l + (y % l - x % l);
    if d >= 1 {
      assert (d - 1) * l >= 0;
    }
  }

  lemma Times(a: nat, b: nat, c: nat)
    requires a < b && 0 < c
    ensures a * c < b * c
  {
    assert (b - a) * c > 0;
  }

  /** The samples taken from the start of the source, in steps of one, are its first ones; from the end, backwards, its
      last ones in reverse. */
  lemma BlockTaken<T>(src: seq<T>, n: nat, k: nat)
    requires k < n <= |src|
    ensures SrcInside(0, 1, n, |src|) && Strided(src, 0, 1, n) == src[..n]
    ensures SrcInside(|src| - 1, -1, n, |src|) && Strided(src, |src| - 1, -1, n)[k] == src[|src| - 1 - k]
  {
    assert SrcAt(|src| - 1, -1, k) == |src| - 1 - k;
  }

  /** Offsets of a block that takes no more than one round are different. */
  lemma OneRound(offset: nat, inc: nat, l: nat, n: nat, j: nat, k: nat)
    requires offset < l && 0 < inc <= l && n * inc <= l && j < k < n
    ensures Advance(offset, inc, l, j) != Advance(offset, inc, l, k)
  {
    AdvanceIsModulo(offset, inc, l, j);
    AdvanceIsModulo(offset, inc, l, k);
    var x, y := offset + j * inc, offset + k * inc;
    Times(j, k, inc);
    Times(k, n, inc);
    Apart(x, y, l);
  }

  /** Round trip for one block: what is written within one round of the buffer is read back, whatever the
      increment. */
  lemma BlockRoundTrip<T>(c: seq<T>, l: nat, offset: nat, inc: nat, xs: seq<T>)
    requires l <= |c| && offset < l && 0 < inc <= l && |xs| * inc <= l
    ensures OffsetsInside(offset, inc, l, |xs|)
    ensures ReadOut(Written(c, l, offset, inc, xs, |xs|), l, offset, inc, |xs|) == xs
  {
    var n := |xs|;
    var d := Written(c, l, offset, inc, xs, n);
    forall k: nat | k < n ensures ReadOut(d, l, offset, inc, n)[k] == xs[k] {
      forall j: nat | k < j < n ensures Advance(offset, inc, l, j) != Advance(offset, inc, l, k) {
        OneRound(offset, inc, l, n, k, j);
      }
      WrittenAt(c, l, offset, inc, xs, n, k);
      ReadOutAt(d, l, offset, inc, n, k);
    }
  }

  // ---------------------------------------------------------------- the queue, for an increment of one

  /** The slot k places after r. */
  function Slot(r: nat, k: nat, l: nat): (s: nat)
    requires r < l && k <= l
    ensures s < l
  {
    if r + k >= l then r + k - l else r + k
  }

  /** The slots from r on, up to w, hold these samples. */
  predicate Holds<T(==)>(c: seq<T>, l: nat, r: nat, w: nat, q: seq<T>) {
    && r < l <= |c| && |q| <= l && w == Slot(r, |q|, l)
    && forall k :: 0 <= k < |q| ==> c[Slot(r, k, l)] == q[k]
  }

  /** Slots from w on, n of them, may differ. */
  predicate OthersKept<T(==)>(c: seq<T>, d: seq<T>, l: nat, w: nat, n: nat)
    requires w < l <= |c| && n <= l
  {
    && |d| == |c|
    && (forall k :: n <= k < l ==> d[Slot(w, k, l)] == c[Slot(w, k, l)])
    && forall i :: l <= i < |c| ==> d[i] == c[i]
  }

  lemma {:induction false} AdvanceByOne(w: nat, l: nat, n: nat)
    requires w < l && n <= l
    ensures Advance(w, 1, l, n) == Slot(w, n, l)
  {
    if n > 0 {
      AdvanceByOne(w, l, n - 1);
    }
  }

  lemma PutOne<T>(c: seq<T>, l: nat, r: nat, w: nat, q: seq<T>, x: T)
    requires Holds(c, l, r, w, q) && |q| < l
    ensures Holds(c[w := x], l, r, Slot(w, 1, l), q + [x])
  {
  }

  /** Writing appends to the queue, as long as there is room, and changes no other slot. */
  lemma {:induction false} WriteAppends<T>(c: seq<T>, l: nat, r: nat, w: nat, q: seq<T>, xs: seq<T>, n: nat)
    requires Holds(c, l, r, w, q) && n <= |xs| && |q| + n <= l
    ensures var d := Written(c, l, w, 1, xs, n);
            Holds(d, l, r, Advance(w, 1, l, n), q + xs[..n]) && OthersKept(c, d, l, w, n)
  {
    if n == 0 {
      assert q + xs[..0] == q;
    } else {
      WriteAppends(c, l, r, w, q, xs, n - 1);
      AdvanceByOne(w, l, n - 1);
      AdvanceByOne(w, l, n);
      assert q + xs[..n] == (q + xs[..n - 1]) + [xs[n - 1]];
      PutOne(Written(c, l, w, 1, xs, n - 1), l, r, Advance(w, 1, l, n - 1), q + xs[..n - 1], xs[n - 1]);
    }
  }

  /** Reading returns the front of the queue and removes it. */
  lemma {:induction false} ReadRemoves<T>(c: seq<T>, l: nat, r: nat, w: nat, q: seq<T>, n: nat)
    requires Holds(c, l, r, w, q) && n <= |q|
    ensures ReadOut(c, l, r, 1, n) == q[..n] && Holds(c, l, Advance(r, 1, l, n), w, q[n..])
  {
    AdvanceByOne(r, l, n);
    if n > 0 {
      ReadRemoves(c, l, r, w, q, n - 1);
      AdvanceByOne(r, l, n - 1);
      assert q[..n] == q[..n - 1] + [q[n - 1]];
    }
    forall k | 0 <= k < |q[n..]|
      ensures c[Slot(Slot(r, n, l), k, l)] == q[n..][k]
    {
      assert Slot(Slot(r, n, l), k, l) == Slot(r, n + k, l);
    }
  }

  /** The write offset is a 16-bit number. */
  const OFFSETS: nat := 0x1_0000

  datatype Op<T> = Write(xs: seq<T>) | Read(n: nat)

  datatype Ring<T> = Ring(c: seq<T>, w: nat, r: nat, output: seq<T>)

  predicate InRange<T>(s: Ring<T>, l: nat) {
    s.w < l && s.r < l <= |s.c|
  }

  function Step<T>(s: Ring<T>, l: nat, op: Op<T>): (t: Ring<T>)
    requires InRange(s, l)
    ensures InRange(t, l)
  {
    match op
    case Write(xs) => s.(c := Written(s.c, l, s.w, 1, xs, |xs|), w := Advance(s.w, 1, l, |xs|) % OFFSETS)
    case Read(n) => s.(output := s.output + ReadOut(s.c, l, s.r, 1, n), r := Advance(s.r, 1, l, n))
  }

  function Exec<T>(s: Ring<T>, l: nat, ops: seq<Op<T>>): (t: Ring<T>)
    requires InRange(s, l)
    ensures InRange(t, l)
    decreases |ops|
  {
    if ops == [] then s else Exec(Step(s, l, ops[0]), l, ops[1..])
  }

  /** No write overfills the buffer and no read takes more than there is. */
  predicate Fits<T>(occupancy: nat, l: nat, ops: seq<Op<T>>)
    decreases |ops|
  {
    ops == [] ||
    match ops[0]
    case Write(xs) => occupancy + |xs| <= l && Fits(occupancy + |xs|, l, ops[1..])
    case Read(n) => n <= occupancy && Fits(occupancy - n, l, ops[1..])
  }

  function Inputs<T>(ops: seq<Op<T>>): seq<T> {
    if ops == [] then []
    else (match ops[0] case Write(xs) => xs case Read(_) => []) + Inputs(ops[1..])
  }

  /** Main result: for a buffer whose offsets fit 16 bits, over any alternation of writes and reads that
      keeps the occupancy within the length, what was read and what is still held is what was
      written, in order. */
  lemma {:induction false} QueueLaw<T>(s: Ring<T>, l: nat, q: seq<T>, ops: seq<Op<T>>) returns (rest: seq<T>)
    requires l <= OFFSETS && Holds(s.c, l, s.r, s.w, q) && Fits(|q|, l, ops)
    ensures var t := Exec(s, l, ops);
            Holds(t.c, l, t.r, t.w, rest) && t.output + rest == s.output + q + Inputs(ops)
    decreases |ops|
  {
    if ops == [] {
      rest := q;
      assert Inputs(ops) == [];
    } else {
      match ops[0] {
        case Write(xs) =>
          WriteAppends(s.c, l, s.r, s.w, q, xs, |xs|);
          assert xs[..|xs|] == xs;
          rest := QueueLaw(Step(s, l, ops[0]), l, q + xs, ops[1..]);
          Regroup(s.output, q, xs, Inputs(ops[1..]));
        case Read(n) =>
          ReadRemoves(s.c, l, s.r, s.w, q, n);
          rest := QueueLaw(Step(s, l, ops[0]), l, q[n..], ops[1..]);
          Regroup(s.output, q[..n], q[n..], Inputs(ops[1..]));
          assert q == q[..n] + q[n..];
      }
    }
  }

  lemma Regroup<T>(a: seq<T>, b: seq<T>, c: seq<T>, d: seq<T>)
    ensures a + (b + c) + d == a + b + (c + d) == a + b + c + d
    ensures [] + d == d
  {
  }

  /** The stored write offset is the offset reached, from every offset the caller can pass. */
  ghost predicate OffsetKept(l: nat, inc: nat)
    requires inc <= l
  {
    forall w: nat, n: nat :: w < l && w < OFFSETS ==> Advance(w, inc, l, n) % OFFSETS == Advance(w, inc, l, n)
  }

  /** It is, if and only if the buffer has at most 65536 elements (or the increment never moves). */
  lemma OffsetExact(l: nat, inc: nat)
    requires 0 < inc < l
    ensures OffsetKept(l, inc) <==> l <= OFFSETS
  {
    if l > OFFSETS {
      var w := if inc <= OFFSETS then OFFSETS - inc else 0;
      assert Advance(w, inc, l, 0) == w;
      assert Advance(w, inc, l, 1) == w + inc >= OFFSETS;
      assert Advance(w, inc, l, 1) % OFFSETS != Advance(w, inc, l, 1);
    }
  }

  lemma WriteOne<T>(s: Ring<T>, l: nat, x: T)
    requires InRange(s, l)
    ensures Step(s, l, Write([x])) == s.(c := s.c[s.w := x], w := Next(s.w, 1, l) % OFFSETS)
  {
    assert Written(s.c, l, s.w, 1, [x], 1) == Written(s.c, l, s.w, 1, [x], 0)[Advance(s.w, 1, l, 0) := x];
    assert Advance(s.w, 1, l, 1) == Next(Advance(s.w, 1, l, 0), 1, l);
  }

  lemma ReadTwo<T>(c: seq<T>, l: nat, r: nat)
    requires r < l <= |c|
    ensures ReadOut(c, l, r, 1, 2) == [c[r], c[Next(r, 1, l)]]
  {
    assert ReadOut(c, l, r, 1, 1) == ReadOut(c, l, r, 1, 0) + [c[Advance(r, 1, l, 0)]];
    assert Advance(r, 1, l, 1) == Next(Advance(r, 1, l, 0), 1, l);
  }

  function TwoBlocks<T>(x: T, y: T): seq<Op<T>> {
    [Write([x]), Write([y]), Read(2)]
  }

  lemma TwoBlocksRun<T>(s: Ring<T>, l: nat, x: T, y: T)
    requires InRange(s, l)
    ensures Inputs(TwoBlocks(x, y)) == [x, y] && (l >= 2 ==> Fits(0, l, TwoBlocks(x, y)))
    ensures Exec(s, l, TwoBlocks(x, y)) == Step(Step(Step(s, l, Write([x])), l, Write([y])), l, Read(2))
  {
    var ops := TwoBlocks(x, y);
    var ops1 := ops[1..];
    var ops2 := ops1[1..];
    assert ops1 == [Write([y]), Read(2)] && ops2 == [Read(2)] && ops2[1..] == [];
    assert Inputs(ops2) == [] && Inputs(ops1) == [y] + Inputs(ops2);
    assert l >= 2 ==> Fits(2, l, ops2) && Fits(1, l, ops1);
    var s1 := Step(s, l, ops[0]);
    var s2 := Step(s1, l, ops1[0]);
    assert Exec(s2, l, ops2) == Exec(Step(s2, l, ops2[0]), l, []);
    assert Exec(s1, l, ops1) == Exec(s2, l, ops2);
  }

  /** Any longer buffer fails as a queue: two samples written from offset 65535 on in two blocks, then
      read, come back with an old element in place of the second. */
  lemma LongBufferLosesSample<T>(c: seq<T>, l: nat, x: T, y: T)
    requires OFFSETS < l <= |c|
    ensures Fits(0, l, TwoBlocks(x, y)) && Inputs(TwoBlocks(x, y)) == [x, y]
    ensures Holds(c, l, OFFSETS - 1, OFFSETS - 1, [])
    ensures Exec(Ring(c, OFFSETS - 1, OFFSETS - 1, []), l, TwoBlocks(x, y)).output == [x, c[OFFSETS]]
  {
    var s0 := Ring(c, OFFSETS - 1, OFFSETS - 1, []);
    TwoBlocksRun(s0, l, x, y);
    WriteOne(s0, l, x);
    var s1 := Step(s0, l, Write([x]));
    assert s1.w == 0 && s1.c[OFFSETS] == c[OFFSETS];
    WriteOne(s1, l, y);
    ReadTwo(Step(s1, l, Write([y])).c, l, OFFSETS - 1);
  }
}
