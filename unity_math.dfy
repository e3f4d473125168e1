/**
  The few pieces of Unity's math library that the controller uses, over
  mathematical reals instead of 32-bit floats. Lengths are never computed:
  a vector's magnitude is characterised by its square (`IsMagnitude`), so
  comparisons `v.magnitude < d` become `SqrMagnitude(v) < d * d`.
 */
module UnityMath {

  /** Unity's `Vector2`. */
  datatype Vec2 = Vec2(x: real, y: real)

  /** `Vector2.zero`. */
  const Zero: Vec2 := Vec2(0.0, 0.0)

  /** `v.sqrMagnitude`. */
  function SqrMagnitude(v: Vec2): real {
    v.x * v.x + v.y * v.y
  }

  /** `m` is the value `v.magnitude` has: the non-negative square root of the squared length. */
  predicate IsMagnitude(m: real, v: Vec2) {
    m >= 0.0 && m * m == SqrMagnitude(v)
  }

  /** `v * k` for a vector and a scalar. */
  function Scale(v: Vec2, k: real): Vec2 {
    Vec2(v.x * k, v.y * k)
  }

  /** `x` lies on the closed segment between `a` and `b`, in either order. */
  predicate Between(a: real, x: real, b: real) {
    (a <= x <= b) || (b <= x <= a)
  }

  /** `Mathf.Clamp01`. */
  function Clamp01(t: real): (r: real)
    ensures 0.0 <= r <= 1.0
    ensures 0.0 <= t <= 1.0 ==> r == t
    ensures t >= 1.0 ==> r == 1.0
    ensures t <= 0.0 ==> r == 0.0
  {
    if t < 0.0 then 0.0 else if t > 1.0 then 1.0 else t
  }

  /** `Mathf.Clamp(value, lo, hi)`: the point of [lo, hi] nearest to `value`. */
  function Clamp(value: real, lo: real, hi: real): (r: real)
    requires lo <= hi
    ensures lo <= r <= hi
    ensures lo <= value <= hi ==> r == value
    ensures value < lo ==> r == lo
    ensures value > hi ==> r == hi
  {
    if value < lo then lo else if value > hi then hi else value
  }

  /** `Mathf.Lerp`: interpolation with the parameter clamped to [0, 1], so it never leaves [a, b]. */
  function LerpScalar(a: real, b: real, t: real): (r: real)
    ensures Between(a, r, b)
    ensures t >= 1.0 ==> r == b
    ensures t <= 0.0 ==> r == a
  {
    var u := Clamp01(t);
    LerpFacts(a, b, u);
    a + (b - a) * u
  }

  /** After interpolating, the remaining distance to `b` is the fraction `1 - clamp(t, 0, 1)` of the original. */
  lemma LerpGap(a: real, b: real, t: real)
    ensures LerpScalar(a, b, t) - b == (1.0 - Clamp01(t)) * (a - b)
  {
    LerpFacts(a, b, Clamp01(t));
  }

  /** `Vector2.Lerp`: componentwise `Mathf.Lerp` with one clamped parameter. */
  function Lerp(a: Vec2, b: Vec2, t: real): (r: Vec2)
    ensures Between(a.x, r.x, b.x) && Between(a.y, r.y, b.y)
    ensures t >= 1.0 ==> r == b
    ensures t <= 0.0 ==> r == a
  {
    Vec2(LerpScalar(a.x, b.x, t), LerpScalar(a.y, b.y, t))
  }

  /** What `a + (b - a) * u` is, for a parameter `u` already clamped to [0, 1]. */
  lemma LerpFacts(a: real, b: real, u: real)
    requires 0.0 <= u <= 1.0
    ensures Between(a, a + (b - a) * u, b)
    ensures a + (b - a) * u - b == (1.0 - u) * (a - b)
  {
    if a <= b {
      MulNonneg(b - a, u);
      MulNonneg(b - a, 1.0 - u);
    } else {
      MulNonneg(a - b, u);
      MulNonneg(a - b, 1.0 - u);
    }
    assert (1.0 - u) * (a - b) == (a - b) - (a - b) * u;
    assert (b - a) * u == -((a - b) * u);
  }

  lemma MulNonneg(x: real, y: real)
    requires x >= 0.0 && y >= 0.0
    ensures x * y >= 0.0
  {
  }

  lemma MulPos(x: real, y: real)
    requires x > 0.0 && y > 0.0
    ensures x * y > 0.0
  {
  }

  lemma NonzeroProduct(x: real, y: real)
    requires x != 0.0 && y != 0.0
    ensures x * y != 0.0
  {
    if x > 0.0 && y > 0.0 { MulPos(x, y); }
    else if x > 0.0 { MulPos(x, -y); }
    else if y > 0.0 { MulPos(-x, y); }
    else { MulPos(-x, -y); }
  }

  /** With a parameter below one, interpolation from `a` stops short of a different `b`. */
  lemma LerpFallsShort(a: real, b: real, t: real)
    requires t < 1.0 && a != b
    ensures LerpScalar(a, b, t) != b
  {
    var r := LerpScalar(a, b, t);
    var k := 1.0 - Clamp01(t);
    var d := a - b;
    LerpGap(a, b, t);
    assert k > 0.0 && r - b == k * d;
    NonzeroProduct(k, d);
  }

  /** For non-negative reals, comparing squares compares the values themselves. */
  lemma SquaresCompare(a: real, b: real)
    requires a >= 0.0 && b >= 0.0
    ensures a < b <==> a * a < b * b
  {
    if a < b {
      MulNonneg(a, b - a);
      MulPos(b, b - a);
      assert b * b - a * a == a * (b - a) + b * (b - a);
    } else {
      MulNonneg(b, a - b);
      MulNonneg(a, a - b);
      assert a * a - b * b == a * (a - b) + b * (a - b);
    }
  }

  /**
    Comparing the squared length against `d * d` decides exactly what the source's
    `v.magnitude < d` and `v.magnitude > d` decide, for any non-negative radius `d`.
   */
  lemma MagnitudeCompare(v: Vec2, m: real, d: real)
    requires IsMagnitude(m, v) && d >= 0.0
    ensures SqrMagnitude(v) < d * d <==> m < d
    ensures SqrMagnitude(v) > d * d <==> m > d
  {
    SquaresCompare(m, d);
    SquaresCompare(d, m);
  }
}
