/** The refraction formula the beam code uses (PrismBeam.Refract, the
    formula of Cg's `refract`), with Snell's law, unit length and total
    internal reflection proved about it. Mathf.Sqrt is a parameter: only the
    facts in IsSqrt are used of it. */
module Refraction {
  import opened Vectors

  /** `sqrt` returns the non-negative square root of every non-negative real. */
  ghost predicate IsSqrt(sqrt: real -> real) {
    forall x :: 0.0 <= x ==> 0.0 <= sqrt(x) && sqrt(x) * sqrt(x) == x
  }

  function Abs(x: real): real {
    if x < 0.0 then -x else x
  }

  /** The cosine of the angle of incidence, cosi = -i . n. */
  function CosIncidence(i: Vec3, n: Vec3): real {
    Dot(Neg(i), n)
  }

  /** The squared cosine of the refraction angle, cost2 = 1 - eta^2 (1 - cosi^2);
      it is not positive exactly when refraction is impossible. */
  function Cost2(i: Vec3, n: Vec3, eta: real): real {
    var cosi := CosIncidence(i, n);
    1.0 - eta * eta * (1.0 - cosi * cosi)
  }

  /** The refracted direction before the total internal reflection gate. */
  function Transmitted(i: Vec3, n: Vec3, eta: real, sqrt: real -> real): Vec3 {
    var cosi := CosIncidence(i, n);
    Add(Scale(i, eta), Scale(n, eta * cosi - sqrt(Abs(Cost2(i, n, eta)))))
  }

  /** Refract(i, n, eta): the transmitted direction, multiplied by 0 when
      cost2 <= 0 (total internal reflection) and by 1 otherwise. */
  function Refract(i: Vec3, n: Vec3, eta: real, sqrt: real -> real): (t: Vec3)
    ensures Cost2(i, n, eta) <= 0.0 ==> t == Zero
    ensures Cost2(i, n, eta) > 0.0 ==> t == Transmitted(i, n, eta, sqrt)
  {
    Scale(Transmitted(i, n, eta, sqrt), if Cost2(i, n, eta) > 0.0 then 1.0 else 0.0)
  }

  /** Dot product of a x + b y with itself, expanded. */
  lemma DotOfSum(x: Vec3, y: Vec3, a: real, b: real)
    ensures Dot(Add(Scale(x, a), Scale(y, b)), Add(Scale(x, a), Scale(y, b)))
         == a * a * Dot(x, x) + 2.0 * a * b * Dot(x, y) + b * b * Dot(y, y)
  {
  }

  /** With unit incident direction and normal and no total internal
      reflection, the refracted direction has unit length. */
  lemma {:induction false} RefractIsUnit(i: Vec3, n: Vec3, eta: real, sqrt: real -> real)
    requires IsSqrt(sqrt)
    requires IsUnit(i) && IsUnit(n)
    requires Cost2(i, n, eta) > 0.0
    ensures IsUnit(Refract(i, n, eta, sqrt))
  {
    TransmittedForm(i, n, eta, sqrt);
    TransmittedIsUnit(i, n, eta, sqrt);
  }

  /** The transmitted direction written out is unit. */
  lemma TransmittedIsUnit(i: Vec3, n: Vec3, eta: real, sqrt: real -> real)
    requires IsSqrt(sqrt)
    requires IsUnit(i) && IsUnit(n)
    requires Cost2(i, n, eta) > 0.0
    ensures IsUnit(Add(Scale(i, eta), Scale(n, eta * CosIncidence(i, n) - sqrt(Cost2(i, n, eta)))))
  {
    CosIncidenceIsDot(i, n);
    RootOfCost2(i, n, eta, sqrt);
    var c := CosIncidence(i, n);
    var s := sqrt(Cost2(i, n, eta));
    CombinationIsUnit(i, n, eta, eta * c - s, c, s);
  }

  /** cosi is minus the dot product of direction and normal. */
  lemma CosIncidenceIsDot(i: Vec3, n: Vec3)
    ensures Dot(i, n) == -CosIncidence(i, n)
  {
  }

  /** Without total internal reflection, s = sqrt(cost2) is a root of
      1 - eta^2 (1 - cosi^2). */
  lemma RootOfCost2(i: Vec3, n: Vec3, eta: real, sqrt: real -> real)
    requires IsSqrt(sqrt)
    requires Cost2(i, n, eta) > 0.0
    ensures var c := CosIncidence(i, n);
            var s := sqrt(Cost2(i, n, eta));
            s * s == 1.0 - eta * eta * (1.0 - c * c)
  {
  }

  /** Without total internal reflection, Refract is eta i + (eta cosi - s) n
      with s = sqrt(cost2). */
  lemma TransmittedForm(i: Vec3, n: Vec3, eta: real, sqrt: real -> real)
    requires Cost2(i, n, eta) > 0.0
    ensures Refract(i, n, eta, sqrt) ==
            Add(Scale(i, eta), Scale(n, eta * CosIncidence(i, n) - sqrt(Cost2(i, n, eta))))
  {
    assert Abs(Cost2(i, n, eta)) == Cost2(i, n, eta);
  }

  /** eta i + k n is unit when i and n are, i . n = -c, and k is eta c minus
      a root of 1 - eta^2 (1 - c^2). */
  lemma CombinationIsUnit(i: Vec3, n: Vec3, eta: real, k: real, c: real, s: real)
    requires IsUnit(i) && IsUnit(n) && Dot(i, n) == -c
    requires s * s == 1.0 - eta * eta * (1.0 - c * c)
    requires k == eta * c - s
    ensures IsUnit(Add(Scale(i, eta), Scale(n, k)))
  {
    DotOfSum(i, n, eta, k);
    UnitNorm(eta, k, c, s, Dot(i, i), Dot(i, n), Dot(n, n));
  }

  /** The scalar identity behind RefractIsUnit: with |i| = |n| = 1,
      i . n = -c and s^2 = 1 - eta^2 (1 - c^2), the vector eta i + (eta c - s) n
      has squared length 1. */
  lemma UnitNorm(eta: real, k: real, c: real, s: real, ii: real, inn: real, nn: real)
    requires ii == 1.0 && nn == 1.0 && inn == -c
    requires s * s == 1.0 - eta * eta * (1.0 - c * c)
    requires k == eta * c - s
    ensures eta * eta * ii + 2.0 * eta * k * inn + k * k * nn == 1.0
  {
    calc {
      eta * eta * ii + 2.0 * eta * k * inn + k * k * nn;
      eta * eta - 2.0 * eta * k * c + k * k;
      { assert k * k - 2.0 * eta * k * c == (k - eta * c) * (k - eta * c) - eta * eta * c * c; }
      eta * eta + s * s - eta * eta * c * c;
      1.0;
    }
  }

  lemma UnitIsNonZero(v: Vec3)
    requires IsUnit(v)
    ensures v != Zero
  {
  }

  /** For unit vectors the gate is exact: the refracted direction is non-zero
      if and only if there is no total internal reflection. This is what
      lets the beam code test the result's magnitude instead of cost2. */
  lemma RefractNonZeroIff(i: Vec3, n: Vec3, eta: real, sqrt: real -> real)
    requires IsSqrt(sqrt)
    requires IsUnit(i) && IsUnit(n)
    ensures Refract(i, n, eta, sqrt) != Zero <==> Cost2(i, n, eta) > 0.0
  {
    if Cost2(i, n, eta) > 0.0 {
      RefractIsUnit(i, n, eta, sqrt);
      UnitIsNonZero(Refract(i, n, eta, sqrt));
    }
  }

  /** Snell's law in vector form: the tangential part of the direction,
      measured by the cross product with the normal, is scaled by eta. */
  lemma RefractSnell(i: Vec3, n: Vec3, eta: real, sqrt: real -> real)
    requires Cost2(i, n, eta) > 0.0
    ensures Cross(Refract(i, n, eta, sqrt), n) == Scale(Cross(i, n), eta)
  {
    TransmittedForm(i, n, eta, sqrt);
    CrossOfCombination(i, n, eta, eta * CosIncidence(i, n) - sqrt(Cost2(i, n, eta)));
  }

  /** The n component of eta i + k n drops out of its cross product with n. */
  lemma CrossOfCombination(i: Vec3, n: Vec3, eta: real, k: real)
    ensures Cross(Add(Scale(i, eta), Scale(n, k)), n) == Scale(Cross(i, n), eta)
  {
    CrossAdd(Scale(i, eta), Scale(n, k), n);
    CrossScale(i, eta, n);
    CrossScaleSelf(n, k);
  }

  /** Two non-negative reals with the same square are equal. */
  lemma SquareRootUnique(s: real, c: real)
    requires 0.0 <= s && 0.0 <= c && s * s == c * c
    ensures s == c
  {
    if s < c {
      SquareLess(s, c);
    } else if c < s {
      SquareLess(c, s);
    }
  }

  lemma SquareLess(a: real, b: real)
    requires 0.0 <= a < b
    ensures a * a < b * b
  {
    calc {
      a * a;
    <= a * b;
    <  { assert (b - a) * b > 0.0; }
      b * b;
    }
  }

  /** A ray travelling straight against a unit normal is not bent, whatever
      the index: cosi = 1, cost2 = 1 and the formula gives i back. */
  lemma RefractNormalIncidence(n: Vec3, eta: real, sqrt: real -> real)
    requires IsSqrt(sqrt)
    requires IsUnit(n)
    ensures Refract(Neg(n), n, eta, sqrt) == Neg(n)
  {
    var i := Neg(n);
    assert CosIncidence(i, n) == 1.0;
    assert Cost2(i, n, eta) == 1.0;
    var s := sqrt(1.0);
    SquareRootUnique(s, 1.0);
  }

  /** With index 1 (a colour channel whose dispersion weight is 0 gets
      Lerp(1, index, 0) == 1) a unit ray that meets the surface from its
      front side passes straight through. */
  lemma RefractIndexOne(i: Vec3, n: Vec3, sqrt: real -> real)
    requires IsSqrt(sqrt)
    requires Dot(i, n) < 0.0
    ensures Refract(i, n, 1.0, sqrt) == i
  {
    IndexOneRoot(i, n, sqrt);
    TransmittedForm(i, n, 1.0, sqrt);
    CombinationIsIncident(i, n, 1.0 * CosIncidence(i, n) - sqrt(Cost2(i, n, 1.0)));
  }

  /** With index 1 and a ray meeting the surface, cost2 = cosi^2 > 0 and its
      root is cosi. */
  lemma IndexOneRoot(i: Vec3, n: Vec3, sqrt: real -> real)
    requires IsSqrt(sqrt)
    requires Dot(i, n) < 0.0
    ensures Cost2(i, n, 1.0) > 0.0 && sqrt(Cost2(i, n, 1.0)) == CosIncidence(i, n)
  {
    CosIncidenceIsDot(i, n);
    var c := CosIncidence(i, n);
    IndexOneCost(c, Cost2(i, n, 1.0));
    SquareRootUnique(sqrt(Cost2(i, n, 1.0)), c);
  }

  /** With index 1 and a unit normal, cost2 is cosi^2, which is positive for
      a ray meeting the surface. */
  lemma IndexOneCost(c: real, cost2: real)
    requires 0.0 < c
    requires cost2 == 1.0 - 1.0 * 1.0 * (1.0 - c * c)
    ensures cost2 == c * c && cost2 > 0.0
  {
    SquareLess(0.0, c);
  }

  /** 1 i + 0 n is i. */
  lemma CombinationIsIncident(i: Vec3, n: Vec3, k: real)
    requires k == 0.0
    ensures Add(Scale(i, 1.0), Scale(n, k)) == i
  {
  }
}
