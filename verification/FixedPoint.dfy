/** Q31 arithmetic of `arm_math.h`: saturation, and the Park transform with its inverse. */
module FixedPoint {

  const M: int := 0x8000_0000

  predicate IsQ31(x: int) {
    -M <= x < M
  }

  predicate IsQ63(x: int) {
    -2 * M * M <= x < 2 * M * M
  }

  /** A cast to `q31_t`: the low 32 bits, as a signed number. */
  function ToQ31(x: int): (r: int)
    ensures IsQ31(r) && (IsQ31(x) ==> r == x)
  {
    (x + M) % (2 * M) - M
  }

  /** Arithmetic shift right of a signed number by 31 bits. */
  function Shr31(x: int): int {
    x / M
  }

  /** `0x7FFFFFFF ^ sign`, for the sign word 0 or -1. */
  function Xor7FFFFFFF(sign: int): int
    requires sign == 0 || sign == -1
  {
    if sign == 0 then M - 1 else -M
  }

  /** `clip_q63_to_q31`. */
  function Clip(x: int): int
    requires IsQ63(x)
  {
    if ToQ31(x / (2 * M)) != Shr31(ToQ31(x)) then Xor7FFFFFFF(x / (2 * M * M)) else ToQ31(x)
  }

  function Saturate(x: int): int {
    if x < -M then -M else if x >= M then M - 1 else x
  }

  /** The comparison of the two words is true saturation, for every 64-bit number. */
  lemma ClipSaturates(x: int)
    requires IsQ63(x)
    ensures Clip(x) == Saturate(x)
  {
    var hi := x / (2 * M);
    assert -M <= hi < M;
    var lo := ToQ31(x);
    var k := (x + M) / (2 * M);
    assert lo == x - 2 * M * k;
    assert Shr31(lo) == if lo < 0 then -1 else 0;
  }

  /** `__QADD`. */
  function QAdd(x: int, y: int): (r: int)
    requires IsQ31(x) && IsQ31(y)
    ensures r == Saturate(x + y)
  {
    ClipSaturates(x + y);
    Clip(x + y)
  }

  /** `__QSUB`. */
  function QSub(x: int, y: int): (r: int)
    requires IsQ31(x) && IsQ31(y)
    ensures r == Saturate(x - y)
  {
    ClipSaturates(x - y);
    Clip(x - y)
  }

  /** The product `(q31_t)(((q63_t) x * y) >> 31)`. */
  function MulQ31(x: int, y: int): (r: int)
    ensures IsQ31(r)
  {
    ToQ31(x * y / M)
  }

  /** `arm_park_q31`: Id and Iq. */
  function Park(alpha: int, beta: int, sinVal: int, cosVal: int): (r: (int, int))
    ensures IsQ31(r.0) && IsQ31(r.1)
  {
    (QAdd(MulQ31(alpha, cosVal), MulQ31(beta, sinVal)), QSub(MulQ31(beta, cosVal), MulQ31(alpha, sinVal)))
  }

  /** `arm_inv_park_q31`: Ialpha and Ibeta. */
  function InvPark(d: int, q: int, sinVal: int, cosVal: int): (r: (int, int))
    ensures IsQ31(r.0) && IsQ31(r.1)
  {
    (QSub(MulQ31(d, cosVal), MulQ31(q, sinVal)), QAdd(MulQ31(q, cosVal), MulQ31(d, sinVal)))
  }

  // ---------------------------------------------------------------- bounds

  lemma MulBound(x: int, y: int, nx: int, ny: int)
    requires -nx <= x <= nx && -ny <= y <= ny
    ensures -(nx * ny) <= x * y <= nx * ny
  {
    assert (nx - x) * (ny + y) >= 0;
    assert (nx + x) * (ny - y) >= 0;
    assert (nx - x) * (ny - y) >= 0;
    assert (nx + x) * (ny + y) >= 0;
  }

  lemma RootBound(x: int, y: int)
    requires 0 <= y && x * x <= y * y
    ensures -y <= x <= y
  {
    assert (y - x) * (y + x) >= 0;
  }

  /** Lagrange's identity: the squares of the rotated pair sum to the product of the squared lengths. */
  lemma Lagrange(a: int, b: int, c: int, s: int)
    ensures (a * c + b * s) * (a * c + b * s) + (b * c - a * s) * (b * c - a * s) == (a * a + b * b) * (c * c + s * s)
  {
  }

  // ---------------------------------------------------------------- Park and back

  /** The current vector leaves five units of room. */
  predicate Current(a: int, b: int) {
    a * a + b * b <= (M - 5) * (M - 5)
  }

  /** The angle: a cosine and a sine of a vector no longer than one. */
  predicate Angle(s: int, c: int) {
    c * c + s * s <= M * M
  }

  lemma SquareNonNegative(x: int)
    ensures x * x >= 0
  {
  }

  lemma Components(x: int, y: int, n: int)
    requires 0 <= n && x * x + y * y <= n * n
    ensures -n <= x <= n && -n <= y <= n
  {
    SquareNonNegative(x);
    SquareNonNegative(y);
    RootBound(x, n);
    RootBound(y, n);
  }

  /** A product of Q31 numbers is cut towards minus infinity. */
  lemma MulFloors(x: int, y: int) returns (r: nat)
    requires -M < x < M && -M <= y <= M
    ensures MulQ31(x, y) * M + r == x * y && r < M
  {
    MulBound(x, y, M - 1, M);
    var p := x * y;
    r := p % M;
    assert -(M - 1) <= p / M <= M - 1;
  }

  /** The rotated vector is not longer than the current vector. */
  lemma RotationBound(a: int, b: int, s: int, c: int)
    requires Current(a, b) && Angle(s, c)
    ensures -(M - 5) * M <= a * c + b * s <= (M - 5) * M
    ensures -(M - 5) * M <= b * c - a * s <= (M - 5) * M
  {
    var i, k := a * a + b * b, c * c + s * s;
    SquareNonNegative(a);
    SquareNonNegative(b);
    SquareNonNegative(c);
    SquareNonNegative(s);
    Lagrange(a, b, c, s);
    ProductBound(i, k, (M - 5) * (M - 5), M * M);
    Components(a * c + b * s, b * c - a * s, (M - 5) * M);
  }

  lemma ProductBound(i: nat, k: nat, ni: nat, nk: nat)
    requires i <= ni && k <= nk
    ensures i * k <= ni * nk
  {
    assert (ni - i) * k >= 0;
    assert ni * (nk - k) >= 0;
  }

  /** A scaled number that is within M times n of zero up to an error. */
  lemma Unscale(r: int, x: int, e: int, n: int, lo: int, hi: int)
    requires r * M == x + e && -(n * M) <= x <= n * M && lo * M <= e <= hi * M
    ensures lo - n <= r <= hi + n
  {
  }

  /** The sum of two products, scaled: nothing saturates, and the error is below two units. */
  lemma SumOfProducts(x1: int, y1: int, x2: int, y2: int) returns (e: nat)
    requires -M < x1 < M && -M <= y1 <= M && -M < x2 < M && -M <= y2 <= M
    ensures (MulQ31(x1, y1) + MulQ31(x2, y2)) * M + e == x1 * y1 + x2 * y2 && e <= 2 * M
  {
    var r1 := MulFloors(x1, y1);
    var r2 := MulFloors(x2, y2);
    e := r1 + r2;
  }

  lemma DifferenceOfProducts(x1: int, y1: int, x2: int, y2: int) returns (e: int)
    requires -M < x1 < M && -M <= y1 <= M && -M < x2 < M && -M <= y2 <= M
    ensures (MulQ31(x1, y1) - MulQ31(x2, y2)) * M + e == x1 * y1 - x2 * y2 && -M <= e <= M
  {
    var r1: int := MulFloors(x1, y1);
    var r2: int := MulFloors(x2, y2);
    e := r1 - r2;
  }

  /** The forward transform, with its rounding errors; nothing saturates. */
  lemma ParkId(a: int, b: int, s: int, c: int) returns (e: int)
    requires Current(a, b) && Angle(s, c)
    ensures 0 <= e <= 2 * M && Park(a, b, s, c).0 * M == a * c + b * s - e
    ensures Park(a, b, s, c).0 == MulQ31(a, c) + MulQ31(b, s)
    ensures -M < Park(a, b, s, c).0 < M
  {
    Components(a, b, M - 5);
    Components(c, s, M);
    RotationBound(a, b, s, c);
    e := SumOfProducts(a, c, b, s);
    Unscale(MulQ31(a, c) + MulQ31(b, s), a * c + b * s, -e, M - 5, -2, 0);
  }

  lemma ParkIq(a: int, b: int, s: int, c: int) returns (e: int)
    requires Current(a, b) && Angle(s, c)
    ensures -M <= e <= M && Park(a, b, s, c).1 * M == b * c - a * s - e
    ensures Park(a, b, s, c).1 == MulQ31(b, c) - MulQ31(a, s)
    ensures -M < Park(a, b, s, c).1 < M
  {
    Components(a, b, M - 5);
    Components(c, s, M);
    RotationBound(a, b, s, c);
    e := DifferenceOfProducts(b, c, a, s);
    Unscale(MulQ31(b, c) - MulQ31(a, s), b * c - a * s, -e, M - 5, -1, 1);
  }

  lemma Recombine(a: int, b: int, s: int, c: int, d: int, q: int, e1: int, e2: int)
    requires d * M == a * c + b * s - e1 && q * M == b * c - a * s - e2
    ensures (d * c - q * s) * M == a * (c * c + s * s) - e1 * c + e2 * s
    ensures (q * c + d * s) * M == b * (c * c + s * s) - e2 * c - e1 * s
  {
    Distribute(d, c, a * c + b * s - e1);
    Distribute(q, s, b * c - a * s - e2);
    Distribute(q, c, b * c - a * s - e2);
    Distribute(d, s, a * c + b * s - e1);
    assert (a * c + b * s - e1) * c == a * (c * c) + b * (s * c) - e1 * c;
    assert (b * c - a * s - e2) * s == b * (s * c) - a * (s * s) - e2 * s;
    assert (b * c - a * s - e2) * c == b * (c * c) - a * (s * c) - e2 * c;
    assert (a * c + b * s - e1) * s == a * (s * c) + b * (s * s) - e1 * s;
    assert a * (c * c + s * s) == a * (c * c) + a * (s * s);
    assert b * (c * c + s * s) == b * (c * c) + b * (s * s);
  }

  lemma Distribute(d: int, c: int, x: int)
    requires d * M == x
    ensures d * c * M == x * c
  {
    assert d * c * M == (d * M) * c;
  }

  /** The errors e1 and e2 of the forward transform and e of the inverse, weighed. */
  lemma WeighedErrors(s: int, c: int, e1: int, e2: int)
    requires -M <= s <= M && -M <= c <= M && 0 <= e1 <= 2 * M && -M <= e2 <= M
    ensures -2 * M * M <= e1 * c <= 2 * M * M && -2 * M * M <= e1 * s <= 2 * M * M
    ensures -M * M <= e2 * c <= M * M && -M * M <= e2 * s <= M * M
  {
    MulBound(e1, c, 2 * M, M);
    MulBound(e1, s, 2 * M, M);
    MulBound(e2, c, M, M);
    MulBound(e2, s, M, M);
  }

  /** A component of the result before saturation. */
  lemma Scaled(a: int, k: int)
    requires -(M - 5) <= a <= M - 5 && 0 <= k <= M * M
    ensures -(M - 5) * (M * M) <= a * k <= (M - 5) * (M * M)
  {
    MulBound(a, k, M - 5, M * M);
  }

  /** Main result: Park and then inverse Park, both truncating and saturating, bring back the current
      vector times the squared length of the angle vector, to within 4 units (alpha) and 5 units (beta);
      none of the four saturating operations saturates. */
  lemma ParkRoundTrip(a: int, b: int, s: int, c: int)
    requires Current(a, b) && Angle(s, c)
    ensures var p := Park(a, b, s, c);
            var r := InvPark(p.0, p.1, s, c);
            var k := c * c + s * s;
            && p.0 == MulQ31(a, c) + MulQ31(b, s) && p.1 == MulQ31(b, c) - MulQ31(a, s)
            && r.0 == MulQ31(p.0, c) - MulQ31(p.1, s) && r.1 == MulQ31(p.1, c) + MulQ31(p.0, s)
            && -4 * M * M <= r.0 * M * M - a * k <= 4 * M * M
            && -5 * M * M <= r.1 * M * M - b * k <= 5 * M * M
  {
    Components(a, b, M - 5);
    Components(c, s, M);
    SquareNonNegative(c);
    SquareNonNegative(s);
    var k := c * c + s * s;
    Scaled(a, k);
    Scaled(b, k);
    var e1 := ParkId(a, b, s, c);
    var e2 := ParkIq(a, b, s, c);
    var p := Park(a, b, s, c);
    Recombine(a, b, s, c, p.0, p.1, e1, e2);
    WeighedErrors(s, c, e1, e2);
    var e3 := DifferenceOfProducts(p.0, c, p.1, s);
    var e4 := SumOfProducts(p.1, c, p.0, s);
    assert (MulQ31(p.0, c) - MulQ31(p.1, s)) * M * M == a * k - e1 * c + e2 * s - e3 * M;
    assert (MulQ31(p.1, c) + MulQ31(p.0, s)) * M * M == b * k - e2 * c - e1 * s - e4 * M;
  }
}
