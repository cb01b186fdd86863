/** One surface interaction of a beam (PrismBeam.Simulate) and the terminal
    resolution of a reflected beam (PrismBeam.HitTest).

    Beam is a C# struct passed by `ref`; here it is a datatype and each `ref`
    parameter is an input together with an output of the same name primed.
    The three beams a call receives are always distinct slots, so copy-in
    copy-out is the same as updating in place.

    Physics.Raycast (with the culling mask) and GetComponent<PrismMaterial>
    are the `raycast` oracle of an Engine; Mathf.Sqrt is its `sqrt`. */
module Beams {
  import opened Vectors
  import opened Refraction

  datatype Option<T> = None | Some(value: T)

  /** UnityEngine.Ray. Unity normalises a ray's direction when it is set;
      that is not modelled (see RefractIsUnit and ReflectKeepsLength for why
      it changes nothing when directions start out unit). */
  datatype Ray = Ray(origin: Vec3, direction: Vec3)

  /** Ray.GetPoint(d) = origin + direction * d. */
  function GetPoint(r: Ray, d: real): Vec3 {
    Add(r.origin, Scale(r.direction, d))
  }

  /** PrismBeam.Beam: a segment with its intensity (`density`), resolved end
      point, whether it travels inside the prism, and the thickness of the
      medium it last met. */
  datatype Beam = Beam(ray: Ray, density: real, hitPos: Vec3, isInside: bool, prismSize: real)

  /** A refractive index; a material with index 0 would make `1f / refractRate`
      infinite, which is not modelled. */
  type Index = r: real | r > 0.0 witness 1.0

  /** PrismMaterial: refractive index, thickness, and the fraction of energy
      transmitted through the surface. */
  datatype Material = Material(refractRate: Index, prismSize: real, throughRate: real)

  /** RaycastHit with the hit collider's PrismMaterial, if it has one. */
  datatype Hit = Hit(point: Vec3, normal: Vec3, material: Option<Material>)

  /** The engine services the core calls: the scene query
      raycast(ray, maxDistance) and the square root. */
  datatype Engine = Engine(raycast: (Ray, real) -> Option<Hit>, sqrt: real -> real)

  /** Distance the scene is queried over when a beam is propagated. */
  const StepRange: real := 10.0
  /** Distance the scene is queried over when a reflected beam is resolved. */
  const ResolveRange: real := 100.0
  /** Length a beam is drawn with when the query finds nothing. */
  const MissLength: real := 10.0

  /** The ray a beam queries the scene with. A beam inside the prism is cast
      back from the far face: from prismSize along its direction, reversed, so
      that it travels prismSize back to the beam's own origin. */
  function QueryRay(b: Beam): (r: Ray)
    ensures !b.isInside ==> r == b.ray
    ensures b.isInside ==> r.direction == Neg(b.ray.direction)
    ensures b.isInside ==> GetPoint(r, b.prismSize) == b.ray.origin
  {
    if b.isInside then Ray(GetPoint(b.ray, b.prismSize), Neg(b.ray.direction)) else b.ray
  }

  /** HitTest: the beam with its end point resolved against the scene, to the
      hit point, or MissLength along its own ray when the query finds
      nothing; nothing else changes. */
  function Resolve(b: Beam, e: Engine): (r: Beam)
    ensures r.(hitPos := b.hitPos) == b
    ensures e.raycast(QueryRay(b), ResolveRange).Some? ==> r.hitPos == e.raycast(QueryRay(b), ResolveRange).value.point
    ensures e.raycast(QueryRay(b), ResolveRange).None? ==> r.hitPos == GetPoint(b.ray, MissLength)
  {
    match e.raycast(QueryRay(b), ResolveRange)
    case Some(hit) => b.(hitPos := hit.point)
    case None => b.(hitPos := GetPoint(b.ray, MissLength))
  }

  /** The index a colour channel sees: Lerp(1, index, colorRefractRate),
      between 1 and the material's index. */
  function ChannelIndex(mat: Material, colorRefractRate: real): (eta: Index)
    ensures 1.0 <= mat.refractRate ==> 1.0 <= eta <= mat.refractRate
    ensures mat.refractRate <= 1.0 ==> mat.refractRate <= eta <= 1.0
  {
    Lerp(1.0, mat.refractRate, colorRefractRate)
  }

  /** The normal seen by the beam: flipped when it leaves the prism, so that
      it faces the side the beam comes from; its length is kept. */
  function FacingNormal(b: Beam, hit: Hit): (n: Vec3)
    ensures Dot(n, n) == Dot(hit.normal, hit.normal)
    ensures IsUnit(hit.normal) ==> IsUnit(n)
    ensures b.isInside ==> Add(n, hit.normal) == Zero
    ensures !b.isInside ==> n == hit.normal
  {
    if b.isInside then Neg(hit.normal) else hit.normal
  }

  /** The relative index across the surface: the channel's index entering the
      prism, its reciprocal leaving it. For a material denser than air the
      ratio is at least 1 going in and at most 1 going out. The Cg refract
      formula reads its eta as n_incident / n_transmitted, so with an index
      above 1 a ray entering the prism bends away from the normal (see
      RefractSnell), and total internal reflection can occur on entry but
      not on exit; the model keeps this as the source passes it. */
  function RelativeIndex(b: Beam, mat: Material, colorRefractRate: real): (eta: real)
    ensures eta > 0.0
    ensures b.isInside ==> eta * ChannelIndex(mat, colorRefractRate) == 1.0
    ensures !b.isInside ==> eta == ChannelIndex(mat, colorRefractRate)
    ensures 1.0 <= mat.refractRate ==> (if b.isInside then eta <= 1.0 else 1.0 <= eta)
  {
    var rate := ChannelIndex(mat, colorRefractRate);
    if b.isInside then 1.0 / rate else rate
  }

  /** The direction the refracted beam gets at a hit: the zero vector under
      total internal reflection. */
  function RefractedDirection(b: Beam, hit: Hit, mat: Material, colorRefractRate: real, e: Engine): Vec3 {
    Refract(b.ray.direction, FacingNormal(b, hit), RelativeIndex(b, mat, colorRefractRate), e.sqrt)
  }

  /** The three beams after one surface interaction, and whether the chain
      goes on. */
  datatype Outcome = Outcome(current: Beam, reflect: Beam, refract: Beam, proceed: bool)

  /** The surface hit a beam's query finds, if any. */
  function SurfaceHit(current: Beam, e: Engine): Option<Hit> {
    e.raycast(QueryRay(current), StepRange)
  }

  /** True when the query hits a surface that carries a material. */
  predicate HitsMaterial(current: Beam, e: Engine) {
    SurfaceHit(current, e).Some? && SurfaceHit(current, e).value.material.Some?
  }

  /** Simulate, as a function of the three beams it receives. */
  function Interact(current: Beam, reflect: Beam, refract: Beam, colorRefractRate: real, e: Engine): (o: Outcome)
    // the chain goes on exactly when a surface with a material is hit
    ensures o.proceed <==> HitsMaterial(current, e)
    // a miss ends the incident beam MissLength along its own (unadjusted) ray
    ensures SurfaceHit(current, e).None? ==>
              o == Outcome(current.(hitPos := GetPoint(current.ray, MissLength)), reflect, refract, false)
    // a hit without a material changes nothing
    ensures SurfaceHit(current, e).Some? && !HitsMaterial(current, e) ==>
              o == Outcome(current, reflect, refract, false)
    // the incident beam keeps its ray, intensity and side
    ensures o.current.ray == current.ray && o.current.density == current.density
    ensures o.current.isInside == current.isInside
    // energy is conserved at the surface: what is not transmitted is reflected
    ensures o.proceed ==> o.reflect.density + o.refract.density == current.density
  {
    match SurfaceHit(current, e)
    case None =>
      Outcome(current.(hitPos := GetPoint(current.ray, MissLength)), reflect, refract, false)
    case Some(hit) =>
      match hit.material
      case None => Outcome(current, reflect, refract, false)
      case Some(mat) =>
        var nml := FacingNormal(current, hit);
        var current' := current.(prismSize := mat.prismSize, hitPos := hit.point);
        var reflect' := reflect.(prismSize := mat.prismSize, isInside := current.isInside,
                                 ray := Ray(hit.point, Reflect(current.ray.direction, nml)));
        var dir := RefractedDirection(current, hit, mat, colorRefractRate, e);
        var refract' := refract.(prismSize := mat.prismSize, isInside := !current.isInside,
                                 ray := Ray(hit.point, dir));
        if dir != Zero then
          Outcome(current', Resolve(reflect'.(density := current.density * (1.0 - mat.throughRate)), e),
                  refract'.(density := current.density * mat.throughRate), true)
        else
          Outcome(current', reflect'.(density := current.density), refract'.(density := 0.0), true)
  }

  /** On a hit with a material: all three beams take the material's
      thickness, the incident beam ends at the hit point, both new beams start
      there, the reflected beam stays on the incident beam's side and the
      refracted one crosses over; the reflected direction is the mirror image
      and the refracted one is given by Refract with the channel's index. */
  lemma InteractHit(current: Beam, reflect: Beam, refract: Beam, colorRefractRate: real, e: Engine)
    requires HitsMaterial(current, e)
    ensures var hit := SurfaceHit(current, e).value;
            var mat := hit.material.value;
            var o := Interact(current, reflect, refract, colorRefractRate, e);
            && o.current.prismSize == o.reflect.prismSize == o.refract.prismSize == mat.prismSize
            && o.current.hitPos == hit.point
            && o.reflect.ray.origin == o.refract.ray.origin == hit.point
            && o.reflect.isInside == current.isInside
            && o.refract.isInside == !current.isInside
            && o.reflect.ray.direction == Reflect(current.ray.direction, FacingNormal(current, hit))
            && o.refract.ray.direction == RefractedDirection(current, hit, mat, colorRefractRate, e)
  {
  }

  /** The energy split: with a non-zero refracted direction the refracted beam
      carries throughRate of the intensity and the reflected beam the rest,
      and the reflected beam is resolved against the scene; under total
      internal reflection (zero refracted direction) everything is reflected
      and the refracted beam is dark. The refracted beam's end point is never
      resolved, nor the reflected one's under total internal reflection. */
  lemma InteractSplit(current: Beam, reflect: Beam, refract: Beam, colorRefractRate: real, e: Engine)
    requires HitsMaterial(current, e)
    ensures var hit := SurfaceHit(current, e).value;
            var mat := hit.material.value;
            var o := Interact(current, reflect, refract, colorRefractRate, e);
            if RefractedDirection(current, hit, mat, colorRefractRate, e) != Zero then
              && o.refract.density == current.density * mat.throughRate
              && o.reflect.density == current.density * (1.0 - mat.throughRate)
              && o.reflect == Resolve(o.reflect, e)
              && o.refract.hitPos == refract.hitPos
            else
              && o.refract.density == 0.0 && o.reflect.density == current.density
              // under total internal reflection no end point is resolved
              && o.refract.hitPos == refract.hitPos && o.reflect.hitPos == reflect.hitPos
  {
  }

  /** For a unit incident direction and unit surface normal, the magnitude
      test the code makes is the physical one: the split happens exactly when
      cost2 > 0, and total internal reflection exactly when cost2 <= 0. */
  lemma InteractTotalInternalReflection(current: Beam, reflect: Beam, refract: Beam, colorRefractRate: real, e: Engine)
    requires HitsMaterial(current, e)
    requires IsSqrt(e.sqrt)
    requires IsUnit(current.ray.direction) && IsUnit(SurfaceHit(current, e).value.normal)
    ensures var hit := SurfaceHit(current, e).value;
            var mat := hit.material.value;
            var o := Interact(current, reflect, refract, colorRefractRate, e);
            var cost2 := Cost2(current.ray.direction, FacingNormal(current, hit), RelativeIndex(current, mat, colorRefractRate));
            && (cost2 <= 0.0 ==> o.refract.density == 0.0 && o.reflect.density == current.density)
            && (cost2 > 0.0 ==> o.refract.density == current.density * mat.throughRate)
  {
    var hit := SurfaceHit(current, e).value;
    var mat := hit.material.value;
    var nml := FacingNormal(current, hit);
    assert IsUnit(nml);
    RefractNonZeroIff(current.ray.direction, nml, RelativeIndex(current, mat, colorRefractRate), e.sqrt);
    InteractSplit(current, reflect, refract, colorRefractRate, e);
  }

  /** Unit directions stay unit: the reflected beam's direction is unit, and
      the refracted beam's is unit or, under total internal reflection, zero.
      So the normalisation Unity's Ray applies on assignment changes nothing. */
  lemma InteractKeepsUnitDirections(current: Beam, reflect: Beam, refract: Beam, colorRefractRate: real, e: Engine)
    requires HitsMaterial(current, e)
    requires IsSqrt(e.sqrt)
    requires IsUnit(current.ray.direction) && IsUnit(SurfaceHit(current, e).value.normal)
    ensures var o := Interact(current, reflect, refract, colorRefractRate, e);
            IsUnit(o.reflect.ray.direction) && (IsUnit(o.refract.ray.direction) || o.refract.ray.direction == Zero)
  {
    var hit := SurfaceHit(current, e).value;
    var mat := hit.material.value;
    var nml := FacingNormal(current, hit);
    var eta := RelativeIndex(current, mat, colorRefractRate);
    assert IsUnit(nml);
    ReflectKeepsLength(current.ray.direction, nml);
    InteractHit(current, reflect, refract, colorRefractRate, e);
    if Cost2(current.ray.direction, nml, eta) > 0.0 {
      RefractIsUnit(current.ray.direction, nml, eta, e.sqrt);
    }
  }

  /** PrismBeam.HitTest on a `ref Beam`. */
  method HitTest(beam: Beam, e: Engine) returns (beam': Beam)
    ensures beam' == Resolve(beam, e)
  {
    beam' := beam;
    var ray := beam.ray;
    if beam.isInside {
      ray := ray.(origin := Add(ray.origin, Scale(ray.direction, beam.prismSize)));
      ray := ray.(direction := Scale(ray.direction, -1.0));
    }
    var hit := e.raycast(ray, ResolveRange);
    if hit.Some? {
      beam' := beam'.(hitPos := hit.value.point);
    } else {
      beam' := beam'.(hitPos := GetPoint(beam.ray, MissLength));
    }
  }

  /** PrismBeam.Simulate on three `ref Beam` slots: returns the updated slots
      and whether the chain goes on. */
  method Simulate(current: Beam, reflect: Beam, refract: Beam, colorRefractRate: real, e: Engine)
    returns (current': Beam, reflect': Beam, refract': Beam, proceed: bool)
    ensures Outcome(current', reflect', refract', proceed) == Interact(current, reflect, refract, colorRefractRate, e)
  {
    current', reflect', refract' := current, reflect, refract;
    var ray := current.ray;
    if current.isInside {
      ray := ray.(origin := GetPoint(ray, current.prismSize));
      ray := ray.(direction := Scale(ray.direction, -1.0));
    }
    assert ray == QueryRay(current);
    var hit := e.raycast(ray, StepRange);
    if hit.Some? {
      var mat := hit.value.material;
      if mat.None? {
        return current', reflect', refract', false;
      }
      var refractRate := Lerp(1.0, mat.value.refractRate, colorRefractRate);
      var nml := if current.isInside then Scale(hit.value.normal, -1.0) else hit.value.normal;
      var eta := if current.isInside then 1.0 / refractRate else refractRate;
      assert nml == FacingNormal(current, hit.value);
      assert eta == RelativeIndex(current, mat.value, colorRefractRate);

      current' := current'.(prismSize := mat.value.prismSize);
      refract' := refract'.(prismSize := mat.value.prismSize);
      reflect' := reflect'.(prismSize := mat.value.prismSize);
      current' := current'.(hitPos := hit.value.point);
      reflect' := reflect'.(ray := reflect'.ray.(origin := hit.value.point));
      refract' := refract'.(ray := refract'.ray.(origin := hit.value.point));

      reflect' := reflect'.(ray := reflect'.ray.(direction := Reflect(current.ray.direction, nml)));
      refract' := refract'.(ray := refract'.ray.(direction := Refract(current.ray.direction, nml, eta, e.sqrt)));

      reflect' := reflect'.(isInside := current.isInside);
      refract' := refract'.(isInside := !current.isInside);

      if refract'.ray.direction != Zero {
        refract' := refract'.(density := current.density * mat.value.throughRate);
        reflect' := reflect'.(density := current.density * (1.0 - mat.value.throughRate));
        reflect' := HitTest(reflect', e);
      } else {
        refract' := refract'.(density := 0.0);
        reflect' := reflect'.(density := current.density);
      }
      return current', reflect', refract', true;
    } else {
      current' := current'.(hitPos := GetPoint(current.ray, MissLength));
    }
    proceed := false;
  }
}
