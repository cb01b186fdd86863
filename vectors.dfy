/** Three-component vectors over the reals, standing in for Unity's Vector3,
    and the two engine helpers the beam code calls on them: Vector3.Reflect
    and Mathf.Lerp. Floating point is not modelled. */
module Vectors {

  datatype Vec3 = Vec3(x: real, y: real, z: real)

  const Zero: Vec3 := Vec3(0.0, 0.0, 0.0)

  function Add(a: Vec3, b: Vec3): Vec3 {
    Vec3(a.x + b.x, a.y + b.y, a.z + b.z)
  }

  function Scale(a: Vec3, k: real): Vec3 {
    Vec3(a.x * k, a.y * k, a.z * k)
  }

  function Neg(a: Vec3): Vec3 {
    Vec3(-a.x, -a.y, -a.z)
  }

  function Dot(a: Vec3, b: Vec3): real {
    a.x * b.x + a.y * b.y + a.z * b.z
  }

  function Cross(a: Vec3, b: Vec3): Vec3 {
    Vec3(a.y * b.z - a.z * b.y, a.z * b.x - a.x * b.z, a.x * b.y - a.y * b.x)
  }

  /** The cross product is linear in its first argument and vanishes on
      multiples of its second. */
  lemma CrossAdd(a: Vec3, b: Vec3, n: Vec3)
    ensures Cross(Add(a, b), n) == Add(Cross(a, n), Cross(b, n))
  {
  }

  lemma CrossScale(a: Vec3, k: real, n: Vec3)
    ensures Cross(Scale(a, k), n) == Scale(Cross(a, n), k)
  {
    var l, r := Cross(Scale(a, k), n), Scale(Cross(a, n), k);
    ScaledDifference(a.y, n.z, a.z, n.y, k);
    assert l.x == r.x;
    ScaledDifference(a.z, n.x, a.x, n.z, k);
    assert l.y == r.y;
    ScaledDifference(a.x, n.y, a.y, n.x, k);
    assert l.z == r.z;
  }

  lemma ScaledDifference(p: real, q: real, r: real, s: real, k: real)
    ensures (p * k) * q - (r * k) * s == (p * q - r * s) * k
  {
    assert (p * k) * q == (p * q) * k;
    assert (r * k) * s == (r * s) * k;
  }

  lemma CrossScaleSelf(n: Vec3, k: real)
    ensures Cross(Scale(n, k), n) == Zero
  {
  }

  /** A direction of length one (Unity's Ray keeps its direction normalised). */
  predicate IsUnit(a: Vec3) {
    Dot(a, a) == 1.0
  }

  /** Vector3.Reflect(i, n) = i - 2 (n . i) n, mirror reflection about the
      plane whose normal is n. The component along a unit normal changes
      sign (and ReflectKeepsTangent shows the tangential part is kept). */
  function Reflect(i: Vec3, n: Vec3): (r: Vec3)
    ensures IsUnit(n) ==> Dot(r, n) == -Dot(i, n)
  {
    Add(Scale(n, -2.0 * Dot(n, i)), i)
  }

  /** Reflection keeps the part of the direction tangent to the mirror plane:
      the cross product with the normal is unchanged, for any normal. */
  lemma ReflectKeepsTangent(i: Vec3, n: Vec3)
    ensures Cross(Reflect(i, n), n) == Cross(i, n)
  {
    var k := -2.0 * Dot(n, i);
    CrossAdd(Scale(n, k), i, n);
    CrossScaleSelf(n, k);
    assert Add(Zero, Cross(i, n)) == Cross(i, n);
  }

  /** Reflecting twice about the same unit normal gives back the incident
      direction. */
  lemma ReflectInvolution(i: Vec3, n: Vec3)
    requires IsUnit(n)
    ensures Reflect(Reflect(i, n), n) == i
  {
    var d := Dot(n, i);
    var r := Reflect(i, n);
    assert r == Add(Scale(n, -2.0 * d), i);
    assert Dot(n, r) == -d;
    CancelAlong(n, i, d);
  }

  /** Adding -2d n and then 2d n gives back the starting vector. */
  lemma CancelAlong(n: Vec3, i: Vec3, d: real)
    ensures Add(Scale(n, -2.0 * -d), Add(Scale(n, -2.0 * d), i)) == i
  {
  }

  /** Reflection about a unit normal keeps the length of the direction. */
  lemma ReflectKeepsLength(i: Vec3, n: Vec3)
    requires IsUnit(n)
    ensures Dot(Reflect(i, n), Reflect(i, n)) == Dot(i, i)
  {
    var k := -2.0 * Dot(n, i);
    var r := Reflect(i, n);
    calc {
      Dot(r, r);
      (n.x * k + i.x) * (n.x * k + i.x) + (n.y * k + i.y) * (n.y * k + i.y)
        + (n.z * k + i.z) * (n.z * k + i.z);
      k * k * Dot(n, n) + 2.0 * k * Dot(n, i) + Dot(i, i);
      k * k + 2.0 * k * Dot(n, i) + Dot(i, i);
      k * (k + 2.0 * Dot(n, i)) + Dot(i, i);
    }
  }

  /** Mathf.Clamp01. */
  function Clamp01(t: real): (r: real)
    ensures 0.0 <= r <= 1.0
    ensures 0.0 <= t <= 1.0 ==> r == t
    ensures t <= 0.0 ==> r == 0.0
    ensures t >= 1.0 ==> r == 1.0
  {
    if t < 0.0 then 0.0 else if t > 1.0 then 1.0 else t
  }

  /** A fraction c in [0, 1] of a span d lies between 0 and d, and is 0 and d
      at the ends. */
  lemma FractionOfSpan(d: real, c: real)
    requires 0.0 <= c <= 1.0
    ensures d >= 0.0 ==> 0.0 <= d * c <= d
    ensures d <= 0.0 ==> d <= d * c <= 0.0
    ensures c == 0.0 ==> d * c == 0.0
    ensures c == 1.0 ==> d * c == d
  {
    Distribute(d, c);
    Ends(d, c);
    if d >= 0.0 {
      NonNegProduct(d, c);
      NonNegProduct(d, 1.0 - c);
    } else {
      NonNegProduct(-d, c);
      NonNegProduct(-d, 1.0 - c);
      NegateFactor(d, c);
      NegateFactor(d, 1.0 - c);
    }
  }

  lemma NonNegProduct(x: real, y: real)
    requires 0.0 <= x && 0.0 <= y
    ensures 0.0 <= x * y
  {
  }

  lemma Distribute(d: real, c: real)
    ensures d * c + d * (1.0 - c) == d
  {
  }

  lemma NegateFactor(d: real, c: real)
    ensures (-d) * c == -(d * c)
  {
  }

  lemma Ends(d: real, c: real)
    ensures c == 0.0 ==> d * c == 0.0
    ensures c == 1.0 ==> d * c == d
  {
  }

  /** Mathf.Lerp(a, b, t) = a + (b - a) * Clamp01(t): the result lies between
      a and b, is a at t <= 0 and b at t >= 1. */
  function Lerp(a: real, b: real, t: real): (r: real)
    ensures a <= b ==> a <= r <= b
    ensures b <= a ==> b <= r <= a
    ensures t <= 0.0 ==> r == a
    ensures t >= 1.0 ==> r == b
  {
    a + Portion(b - a, Clamp01(t))
  }

  /** The share d * c of a span d for a fraction c: between 0 and d, with
      its ends at c = 0 and c = 1. */
  function Portion(d: real, c: real): (p: real)
    requires 0.0 <= c <= 1.0
    ensures d >= 0.0 ==> 0.0 <= p <= d
    ensures d <= 0.0 ==> d <= p <= 0.0
    ensures c == 0.0 ==> p == 0.0
    ensures c == 1.0 ==> p == d
  {
    var p := d * c;
    FractionOfSpan(d, c);
    p
  }
}
