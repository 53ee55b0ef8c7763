/** Linear interpolation in tables, `arm_math.h`: the input is a 12.20 number, the table entries are Q31,
    Q15 or Q7 numbers. */
module Interp {
  import opened FixedPoint

  const ONE: int := 0x10_0000           // 1.0 in 12.20 format
  const WORD: int := 0x1_0000_0000

  predicate IsQ15(x: int) {
    -0x8000 <= x < 0x8000
  }

  predicate IsQ7(x: int) {
    -0x80 <= x < 0x80
  }

  function ToQ15(x: int): (r: int)
    ensures IsQ15(r) && (IsQ15(x) ==> r == x)
  {
    (x + 0x8000) % 0x1_0000 - 0x8000
  }

  function ToQ7(x: int): (r: int)
    ensures IsQ7(r) && (IsQ7(x) ==> r == x)
  {
    (x + 0x80) % 0x100 - 0x80
  }

  /** `(x & 0xFFF00000) >> 20`: the mask is an unsigned constant, so the shift is a logical one and the
      test `index < 0` that follows in the C text is never true. */
  function Index(x: int): (i: nat)
    ensures i < 4096
  {
    x % WORD / ONE
  }

  /** `x & 0x000FFFFF`. */
  function Fract(x: int): (f: nat)
    ensures f < ONE
  {
    x % WORD % ONE
  }

  /** `arm_linear_interp_q31`. */
  function InterpQ31(t: seq<int>, x: int): int
    requires |t| >= 1
  {
    var index := Index(x);
    if index >= |t| - 1 then t[|t| - 1]
    else
      var fract := Fract(x) * 2048;
      var y := ToQ31(t[index] * (M - 1 - fract) / (2 * M));
      var z := ToQ31(y + ToQ31(t[index + 1] * fract / (2 * M)));
      ToQ31(2 * z)
  }

  /** `arm_linear_interp_q15`. */
  function InterpQ15(t: seq<int>, x: int): int
    requires |t| >= 1
  {
    var index := Index(x);
    if index >= |t| - 1 then t[|t| - 1]
    else
      var fract := Fract(x);
      ToQ15((t[index] * (ONE - 1 - fract) + t[index + 1] * fract) / ONE)
  }

  /** `arm_linear_interp_q7`: the sums are 32 bits wide. */
  function InterpQ7(t: seq<int>, x: int): int
    requires |t| >= 1
  {
    var index := Index(x);
    if index >= |t| - 1 then t[|t| - 1]
    else
      var fract := Fract(x);
      var y := ToQ31(t[index] * (ONE - 1 - fract));
      ToQ7(ToQ31(y + ToQ31(t[index + 1] * fract)) / ONE)
  }

  function Min(a: int, b: int): int {
    if a <= b then a else b
  }

  function Max(a: int, b: int): int {
    if a <= b then b else a
  }

  /** The input falls between two entries. */
  predicate Inside(t: seq<int>, x: int) {
    Index(x) + 1 < |t|
  }

  // ---------------------------------------------------------------- weighted sums

  /** A sum with non-negative weights lies between its terms. */
  lemma Between(a: int, b: int, v: nat, w: nat)
    ensures Min(a, b) * (v + w) <= a * v + b * w <= Max(a, b) * (v + w)
  {
    var lo, hi := Min(a, b), Max(a, b);
    assert (a - lo) * v >= 0;
    assert (b - lo) * w >= 0;
    assert (hi - a) * v >= 0;
    assert (hi - b) * w >= 0;
    assert lo * (v + w) == lo * v + lo * w;
    assert hi * (v + w) == hi * v + hi * w;
  }

  lemma Weighted(y: int, w: int, lo: int, hi: int)
    requires lo <= y <= hi && 0 <= w
    ensures lo * w <= y * w <= hi * w
  {
    assert (y - lo) * w >= 0;
    assert (hi - y) * w >= 0;
  }

  /** Half a product with a weight below one, rounded down. */
  lemma FloorBelow(n: int, w: int)
    requires 0 <= w < M && -M * w <= n <= (M - 1) * w
    ensures -((w + 1) / 2) <= n / (2 * M) && 2 * (n / (2 * M)) <= w
  {
  }

  /** The halves of the two products, each rounded down: the sum does not overflow when it is doubled. */
  lemma HalvesFit(y0: int, y1: int, h: nat)
    requires IsQ31(y0) && IsQ31(y1) && 2 * h < M
    ensures var p, q := y0 * (M - 1 - 2 * h) / (2 * M), y1 * (2 * h) / (2 * M);
            IsQ31(p) && IsQ31(q) && IsQ31(p + q) && IsQ31(2 * (p + q))
  {
    Weighted(y0, M - 1 - 2 * h, -M, M - 1);
    Weighted(y1, 2 * h, -M, M - 1);
    FloorBelow(y0 * (M - 1 - 2 * h), M - 1 - 2 * h);
    FloorBelow(y1 * (2 * h), 2 * h);
  }

  // ---------------------------------------------------------------- Q31

  lemma InterpQ31Exact(t: seq<int>, x: int)
    requires Inside(t, x) && forall i :: 0 <= i < |t| ==> IsQ31(t[i])
    ensures var y0, y1, f := t[Index(x)], t[Index(x) + 1], Fract(x) * 2048;
            InterpQ31(t, x) == 2 * (y0 * (M - 1 - f) / (2 * M) + y1 * f / (2 * M))
  {
    assert Fract(x) * 2048 == 2 * (Fract(x) * 1024);
    HalvesFit(t[Index(x)], t[Index(x) + 1], Fract(x) * 1024);
  }

  lemma TwoFloors(p: int, q: int, r: int)
    requires r == 2 * (p / (2 * M) + q / (2 * M))
    ensures M * r <= p + q < M * (r + 4)
  {
  }

  lemma NearNeighbours(r: int, sum: int, lo: int, hi: int)
    requires IsQ31(lo) && IsQ31(hi) && M * r <= sum < M * (r + 4) && lo * (M - 1) <= sum <= hi * (M - 1)
    ensures lo - 5 < r <= hi + 1
  {
  }

  /** Main result, Q31: nothing overflows; the result is below the weighted sum of the two neighbours by
      less than four units, so it stays within five units below and one above them. */
  lemma InterpQ31Bounds(t: seq<int>, x: int)
    requires Inside(t, x) && forall i :: 0 <= i < |t| ==> IsQ31(t[i])
    ensures var y0, y1, f, r := t[Index(x)], t[Index(x) + 1], Fract(x) * 2048, InterpQ31(t, x);
            && M * r <= y0 * (M - 1 - f) + y1 * f < M * (r + 4)
            && Min(y0, y1) - 5 < r <= Max(y0, y1) + 1
  {
    var y0, y1, f := t[Index(x)], t[Index(x) + 1], Fract(x) * 2048;
    InterpQ31Exact(t, x);
    TwoFloors(y0 * (M - 1 - f), y1 * f, InterpQ31(t, x));
    Between(y0, y1, M - 1 - f, f);
    NearNeighbours(InterpQ31(t, x), y0 * (M - 1 - f) + y1 * f, Min(y0, y1), Max(y0, y1));
  }

  // ---------------------------------------------------------------- Q15 and Q7

  /** The weighted sum of two neighbours, rounded down. */
  function Blend(y0: int, y1: int, f: int): int {
    (y0 * (ONE - 1 - f) + y1 * f) / ONE
  }

  lemma BlendBounds(y0: int, y1: int, f: nat, width: int)
    requires f < ONE && 0 <= width <= 0x8000 && -width <= y0 < width && -width <= y1 < width
    ensures Min(y0, y1) - 1 <= Blend(y0, y1, f) <= Max(y0, y1)
    ensures -width <= Blend(y0, y1, f) < width
  {
    Between(y0, y1, ONE - 1 - f, f);
    Rounded(y0 * (ONE - 1 - f) + y1 * f, Min(y0, y1), Max(y0, y1));
  }

  lemma Rounded(sum: int, lo: int, hi: int)
    requires -0x8000 <= lo <= hi < 0x8000 && lo * (ONE - 1) <= sum <= hi * (ONE - 1)
    ensures lo - 1 <= sum / ONE <= hi && (lo <= 0 ==> lo <= sum / ONE)
  {
  }

  lemma BlendMonotone(y0: int, y1: int, f: nat, g: nat)
    requires f <= g < ONE
    ensures y0 <= y1 ==> Blend(y0, y1, f) <= Blend(y0, y1, g)
    ensures y0 >= y1 ==> Blend(y0, y1, f) >= Blend(y0, y1, g)
  {
    var a, b := y0 * (ONE - 1 - f) + y1 * f, y0 * (ONE - 1 - g) + y1 * g;
    assert b - a == (y1 - y0) * (g - f);
    if y0 <= y1 {
      assert (y1 - y0) * (g - f) >= 0;
    } else {
      assert (y0 - y1) * (g - f) >= 0;
    }
  }

  predicate Entries(t: seq<int>, width: int) {
    forall i :: 0 <= i < |t| ==> -width <= t[i] < width
  }

  /** Two inputs of one segment, in this order. */
  predicate SameSegment(x: int, x': int) {
    Index(x) == Index(x') && Fract(x) <= Fract(x')
  }

  lemma InterpQ15IsBlend(t: seq<int>, x: int)
    requires Inside(t, x) && Entries(t, 0x8000)
    ensures InterpQ15(t, x) == Blend(t[Index(x)], t[Index(x) + 1], Fract(x))
  {
    BlendBounds(t[Index(x)], t[Index(x) + 1], Fract(x), 0x8000);
  }

  /** The 32-bit sums of the Q7 function do not overflow. */
  lemma InterpQ7IsBlend(t: seq<int>, x: int)
    requires Inside(t, x) && Entries(t, 0x80)
    ensures InterpQ7(t, x) == Blend(t[Index(x)], t[Index(x) + 1], Fract(x))
  {
    var y0, y1, f := t[Index(x)], t[Index(x) + 1], Fract(x);
    Weighted(y0, ONE - 1 - f, -0x80, 0x80);
    Weighted(y1, f, -0x80, 0x80);
    BlendBounds(y0, y1, f, 0x80);
  }

  /** Main result, Q15: the result lies between the two neighbours, or one unit below them, and within a
      segment it is monotone in the fraction, in the direction of the neighbours. */
  lemma InterpQ15Bounds(t: seq<int>, x: int, x': int)
    requires Inside(t, x) && Entries(t, 0x8000) && SameSegment(x, x')
    ensures var y0, y1 := t[Index(x)], t[Index(x) + 1];
            && Min(y0, y1) - 1 <= InterpQ15(t, x) <= Max(y0, y1)
            && (y0 <= y1 ==> InterpQ15(t, x) <= InterpQ15(t, x'))
            && (y0 >= y1 ==> InterpQ15(t, x) >= InterpQ15(t, x'))
  {
    var y0, y1 := t[Index(x)], t[Index(x) + 1];
    InterpQ15IsBlend(t, x);
    InterpQ15IsBlend(t, x');
    BlendBounds(y0, y1, Fract(x), 0x8000);
    BlendMonotone(y0, y1, Fract(x), Fract(x'));
  }

  /** Main result, Q7. */
  lemma InterpQ7Bounds(t: seq<int>, x: int, x': int)
    requires Inside(t, x) && Entries(t, 0x80) && SameSegment(x, x')
    ensures var y0, y1 := t[Index(x)], t[Index(x) + 1];
            && Min(y0, y1) - 1 <= InterpQ7(t, x) <= Max(y0, y1)
            && (y0 <= y1 ==> InterpQ7(t, x) <= InterpQ7(t, x'))
            && (y0 >= y1 ==> InterpQ7(t, x) >= InterpQ7(t, x'))
  {
    var y0, y1 := t[Index(x)], t[Index(x) + 1];
    InterpQ7IsBlend(t, x);
    InterpQ7IsBlend(t, x');
    BlendBounds(y0, y1, Fract(x), 0x80);
    BlendMonotone(y0, y1, Fract(x), Fract(x'));
  }

  /** The result is near the line through the two neighbours: off by at most one unit and the share of
      y0 that the weights leave out. */
  lemma NearTheLine(t: seq<int>, x: int)
    requires Inside(t, x) && Entries(t, 0x8000)
    ensures var y0, y1, f := t[Index(x)], t[Index(x) + 1], Fract(x);
            var line := y0 * (ONE - f) + y1 * f;
            line - ONE - 0x8000 < ONE * InterpQ15(t, x) <= line + 0x8000
  {
    InterpQ15IsBlend(t, x);
    var y0, f := t[Index(x)], Fract(x);
    assert y0 * (ONE - f) == y0 * (ONE - 1 - f) + y0;
  }

  /** A negative input is never below the table: it selects an entry of the upper half of the 4096, so a
      table of at most 2049 entries answers with its last entry, not with its first. */
  lemma NegativeInput(t: seq<int>, x: int)
    requires -M <= x < 0 && 1 <= |t|
    ensures Index(x) == 4096 + x / ONE && Index(x) >= 2048
    ensures |t| <= 2049 ==> InterpQ31(t, x) == InterpQ15(t, x) == InterpQ7(t, x) == t[|t| - 1]
  {
    assert x % WORD == x + WORD;
    assert (x + WORD) / ONE == x / ONE + 4096;
  }

  // ---------------------------------------------------------------- in terms of the input itself

  /** An input that is not negative is its index and its fraction; a negative one is those of the input taken as
      unsigned. */
  lemma InputSplits(x: int)
    requires -M <= x < M
    ensures Index(x) * ONE + Fract(x) == if x >= 0 then x else x + WORD
  {
    var u := if x >= 0 then x else x + WORD;
    assert x % WORD == u;
    assert u == u / ONE * ONE + u % ONE;
  }

  /** Input i + f / ONE selects entry i and fraction f. */
  lemma InputSelects(i: nat, f: nat)
    requires f < ONE && i * ONE + f < M
    ensures Index(i * ONE + f) == i && Fract(i * ONE + f) == f
  {
    var x := i * ONE + f;
    assert x % WORD == x;
    assert x / ONE == i && x % ONE == f;
  }

  /** From the last entry on, all three functions answer with the last entry. */
  lemma BeyondTheTable(t: seq<int>, x: int)
    requires 0 <= x < M && |t| >= 1 && x >= (|t| - 1) * ONE
    ensures InterpQ31(t, x) == InterpQ15(t, x) == InterpQ7(t, x) == t[|t| - 1]
  {
    InputSplits(x);
  }

  /** At an entry itself the answer is the entry, less one unit if it is positive: the weights add up to one unit less
      than ONE. */
  lemma AtAnEntry(t: seq<int>, i: nat)
    requires i + 1 < |t| && i * ONE < M && Entries(t, 0x8000)
    ensures var r := InterpQ15(t, i * ONE);
            if t[i] > 0 then r == t[i] - 1 else r == t[i]
    ensures Entries(t, 0x80) ==> InterpQ7(t, i * ONE) == InterpQ15(t, i * ONE)
  {
    InputSelects(i, 0);
    assert i * ONE + 0 == i * ONE;
    InterpQ15IsBlend(t, i * ONE);
    if Entries(t, 0x80) {
      InterpQ7IsBlend(t, i * ONE);
    }
    EntryBlend(t[i], t[i + 1]);
  }

  lemma EntryBlend(y0: int, y1: int)
    requires IsQ15(y0)
    ensures Blend(y0, y1, 0) == if y0 > 0 then y0 - 1 else y0
  {
    assert y0 * (ONE - 1 - 0) + y1 * 0 == (y0 - 1) * ONE + (ONE - y0);
  }

  /** The answer of the Q15 and of the Q7 function. */
  function Answer(t: seq<int>, x: int): int
    requires |t| >= 1
  {
    if Inside(t, x) then Blend(t[Index(x)], t[Index(x) + 1], Fract(x)) else t[|t| - 1]
  }

  lemma Answers(t: seq<int>, x: int)
    requires |t| >= 1 && Entries(t, 0x8000)
    ensures InterpQ15(t, x) == Answer(t, x)
    ensures Entries(t, 0x80) ==> InterpQ7(t, x) == Answer(t, x)
  {
    if Inside(t, x) {
      InterpQ15IsBlend(t, x);
      if Entries(t, 0x80) {
        InterpQ7IsBlend(t, x);
      }
    }
  }

  predicate NonDecreasing(t: seq<int>) {
    forall i, j :: 0 <= i <= j < |t| ==> t[i] <= t[j]
  }

  lemma SegmentEnd(y0: int, y1: int)
    requires IsQ15(y1)
    ensures Blend(y0, y1, ONE - 1) == if y1 > 0 then y1 - 1 else y1
  {
    assert y0 * (ONE - 1 - (ONE - 1)) + y1 * (ONE - 1) == (y1 - 1) * ONE + (ONE - y1);
  }

  lemma LaterSegment(t: seq<int>, x: int, x': int)
    requires Entries(t, 0x8000) && NonDecreasing(t) && Inside(t, x) && Index(x) < Index(x')
    ensures Answer(t, x) <= Answer(t, x')
  {
    var i, j := Index(x), Index(x');
    BlendMonotone(t[i], t[i + 1], Fract(x), ONE - 1);
    SegmentEnd(t[i], t[i + 1]);
    if Inside(t, x') {
      BlendMonotone(t[j], t[j + 1], 0, Fract(x'));
      EntryBlend(t[j], t[j + 1]);
    }
  }

  /** Main result in the input: over a non-decreasing table the Q15 function is non-decreasing on all inputs that are not
      negative, across the segments and past the end, and so is the Q7 function. */
  lemma MonotoneInput(t: seq<int>, x: int, x': int)
    requires 0 <= x <= x' < M && |t| >= 1 && Entries(t, 0x8000) && NonDecreasing(t)
    ensures InterpQ15(t, x) <= InterpQ15(t, x')
    ensures Entries(t, 0x80) ==> InterpQ7(t, x) <= InterpQ7(t, x')
  {
    Answers(t, x);
    Answers(t, x');
    InputSplits(x);
    InputSplits(x');
    assert Index(x) <= Index(x');
    if Inside(t, x) {
      if Index(x) < Index(x') {
        LaterSegment(t, x, x');
      } else {
        BlendMonotone(t[Index(x)], t[Index(x) + 1], Fract(x), Fract(x'));
      }
    }
  }

  /** The line through entries i and i + 1, times ONE. */
  function LineAt(t: seq<int>, i: nat, x: int): int
    requires i + 1 < |t|
  {
    t[i] * ONE + (t[i + 1] - t[i]) * (x - i * ONE)
  }

  /** Main result in the input: between entries i and i + 1 the Q15 answer is the line through them, up to one unit
      and the share that the weights leave out; so is the Q7 answer. */
  lemma OnTheLine(t: seq<int>, i: nat, x: int)
    requires i + 1 < |t| && i * ONE <= x < (i + 1) * ONE && x < M && Entries(t, 0x8000)
    ensures LineAt(t, i, x) - ONE - 0x8000 < ONE * InterpQ15(t, x) <= LineAt(t, i, x) + 0x8000
    ensures Entries(t, 0x80) ==> LineAt(t, i, x) - ONE - 0x80 < ONE * InterpQ7(t, x) <= LineAt(t, i, x) + 0x80
  {
    var f := x - i * ONE;
    InputSelects(i, f);
    assert t[i] * (ONE - f) + t[i + 1] * f == LineAt(t, i, x);
    NearTheLine(t, x);
    if Entries(t, 0x80) {
      InterpQ7IsBlend(t, x);
      assert t[i] * (ONE - f) == t[i] * (ONE - 1 - f) + t[i];
    }
  }

  /** The Q31 answer, too, up to four units and that share. */
  lemma OnTheLineQ31(t: seq<int>, i: nat, x: int)
    requires i + 1 < |t| && i * ONE <= x < (i + 1) * ONE && x < M && forall k :: 0 <= k < |t| ==> IsQ31(t[k])
    ensures LineAt(t, i, x) * 2048 - 5 * M < M * InterpQ31(t, x) <= LineAt(t, i, x) * 2048 + M
  {
    var f := x - i * ONE;
    InputSelects(i, f);
    InterpQ31Bounds(t, x);
    LineSplits(t[i], t[i + 1], f);
  }

  lemma LineSplits(y0: int, y1: int, f: int)
    ensures y0 * (M - 1 - f * 2048) + y1 * (f * 2048) == (y0 * ONE + (y1 - y0) * f) * 2048 - y0
  {
    assert y0 * (M - 1 - f * 2048) == y0 * M - y0 - y0 * f * 2048;
    assert (y1 - y0) * f == y1 * f - y0 * f;
    assert y1 * (f * 2048) == y1 * f * 2048;
  }
}
