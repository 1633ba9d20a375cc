// pkg/math/math.go: half-up Ray arithmetic on arbitrary-precision integers.
// Go's big.Int.Div is Euclidean, as is Dafny's `/`.
module RayMath {

  const RAY: int := 1_000_000_000_000_000_000_000_000_000
  const WAD: int := 1_000_000_000_000_000_000
  const HF_SAFETY_THRESHOLD: int := 1_050_000_000_000_000_000
  const HF_LIQUIDATION_THRESHOLD: int := WAD
  const DUST_THRESHOLD: int := 10

  /** Scaled amount of the real amount a at index b; a zero index gives zero. */
  function RayDiv(a: int, b: int): int {
    if b == 0 then 0 else (a * RAY + b / 2) / b
  }

  /** Real amount of the scaled amount a at index b. */
  function RayMul(a: int, b: int): int {
    (a * b + RAY / 2) / RAY
  }

  // ---------- Division, in the form every later proof uses ----------

  /** q is the quotient of x by d exactly when d*q is the last multiple of d not above x. */
  lemma DivIs(x: int, d: int, q: int)
    requires d > 0
    ensures x / d == q <==> d * q <= x < d * q + d
  {
    var r := x - d * (x / d);
    assert 0 <= r < d;
    if d * q <= x < d * q + d {
      if q < x / d {
        assert d * q + d <= d * (x / d) by { MulLe(d, q + 1, x / d); }
      } else if q > x / d {
        assert d * (x / d) + d <= d * q by { MulLe(d, x / d + 1, q); }
      }
    }
  }

  lemma MulLe(k: int, x: int, y: int)
    requires k >= 0 && x <= y
    ensures k * x <= k * y
  {}

  /** A product bounds a factor. */
  lemma MulCancelLe(k: int, x: int, y: int)
    requires k > 0 && k * x <= k * y
    ensures x <= y
  {}

  lemma MulCancelLt(k: int, x: int, y: int)
    requires k > 0 && k * x < k * y
    ensures x < y
  {}

  /** The bracket of a floor division: d*(x/d) <= x < d*(x/d) + d. */
  lemma DivBracket(x: int, d: int)
    requires d > 0
    ensures d * (x / d) <= x < d * (x / d) + d
  {}

  lemma DivMono(x: int, y: int, d: int)
    requires d > 0 && x <= y
    ensures x / d <= y / d
  {
    DivBracket(x, d);
    DivBracket(y, d);
    if x / d > y / d { MulLe(d, y / d + 1, x / d); }
  }

  /** A floor is below an integer bound exactly when the dividend is below the scaled bound. */
  lemma DivLt(x: int, d: int, k: int)
    requires d > 0
    ensures x / d < k <==> x < d * k
  {
    DivBracket(x, d);
    if x / d < k { MulLe(d, x / d + 1, k); }
    if x < d * k { MulCancelLt(d, x / d, k); }
  }

  lemma DivNonNeg(x: int, d: int)
    requires d > 0 && x >= 0
    ensures x / d >= 0
  {}

  // ---------- What the two roundings promise ----------

  /** RayMul rounds to the nearest integer: twice the error is at most RAY, halves go up. */
  lemma RayMulNearest(s: int, i: int)
    ensures -RAY < 2 * (RAY * RayMul(s, i) - s * i) <= RAY
  {}

  /** RayDiv rounds to the nearest integer: twice the error is at most the index. */
  lemma RayDivNearest(a: int, i: int)
    requires i > 0
    ensures -i <= 2 * (i * RayDiv(a, i) - a * RAY) <= i
  {}

  lemma RayMulMonotone(s: int, t: int, i: int)
    requires s <= t && i >= 0
    ensures RayMul(s, i) <= RayMul(t, i)
  {}

  lemma RayMulNonNeg(s: int, i: int)
    requires s >= 0 && i >= 0
    ensures RayMul(s, i) >= 0
  {}

  lemma RayDivNonNeg(a: int, i: int)
    requires a >= 0 && i >= 0
    ensures RayDiv(a, i) >= 0
  {}

  // ---------- Round trips ----------

  /** Scaled -> real -> scaled is the identity at every index of at least one RAY. */
  lemma ScaledRoundTrip(s: int, i: int)
    requires i >= RAY
    ensures RayDiv(RayMul(s, i), i) == s
  {
    var m := RayMul(s, i);
    RayMulNearest(s, i);
    if i == RAY {
      assert 2 * RAY * (m - s) <= RAY && -RAY < 2 * RAY * (m - s);
      assert m == s;
    }
    assert i * s <= m * RAY + i / 2 < i * s + i;
    DivIs(m * RAY + i / 2, i, s);
  }

  /** Below one RAY, 1 + RAY scaled values share at most RAY real values, so two neighbours collide. */
  lemma {:induction false} Climb(n: nat, i: int)
    requires forall s: nat :: s < n ==> RayMul(s, i) < RayMul(s + 1, i)
    ensures RayMul(n, i) >= RayMul(0, i) + n
  {
    if n > 0 {
      Climb(n - 1, i);
      assert RayMul(n - 1, i) < RayMul(n - 1 + 1, i);
    }
  }

  ghost predicate ScaledRoundTrips(i: int) {
    forall s: nat :: RayDiv(RayMul(s, i), i) == s
  }

  /** The round trip holds for every scaled balance exactly when the index is at least one RAY. */
  lemma ScaledRoundTripIff(i: int)
    requires i > 0
    ensures ScaledRoundTrips(i) <==> i >= RAY
  {
    if i >= RAY {
      forall s: nat ensures RayDiv(RayMul(s, i), i) == s { ScaledRoundTrip(s, i); }
    } else if ScaledRoundTrips(i) {
      DivIs(0 * i + RAY / 2, RAY, 0);
      DivIs(RAY * i + RAY / 2, RAY, i);
      forall s: nat ensures RayMul(s, i) < RayMul(s + 1, i) {
        RayMulMonotone(s, s + 1, i);
        assert RayDiv(RayMul(s, i), i) == s && RayDiv(RayMul(s + 1, i), i) == s + 1;
      }
      Climb(RAY, i);
    }
  }

  /** Real -> scaled -> real loses at most (i + RAY) / (2 RAY), and nothing at an index of at most RAY. */
  lemma AmountRoundTrip(a: int, i: int)
    requires i > 0
    ensures var err := RayMul(RayDiv(a, i), i) - a;
            && -((i + RAY) / (2 * RAY)) <= err <= (i + RAY) / (2 * RAY)
            && (i <= RAY ==> err == 0)
  {
    var sd := RayDiv(a, i);
    var r := RayMul(sd, i);
    RayDivNearest(a, i);
    RayMulNearest(sd, i);
    assert sd * i == i * sd;
    assert -(i + RAY) < 2 * RAY * (r - a) <= i + RAY;
    DivBracket(i + RAY, 2 * RAY);
    var q := (i + RAY) / (2 * RAY);
    if r - a > q { MulLe(2 * RAY, q + 1, r - a); }
    if r - a < -q { MulLe(2 * RAY, r - a, -q - 1); }
    if i == RAY { DivIs(a * RAY + RAY / 2, RAY, a); DivIs(a * RAY + RAY / 2, RAY, r); }
  }
}
