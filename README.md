# Prism beam propagation, modelled in Dafny

A model of the beam-propagation core of the Unity component `PrismBeam`.
White light enters a prism and is split into seven colour channels. Each
channel has its own dispersion weight and a fixed-size buffer ("chain") of
beam segments. Every tick the component does the following:

- It resets the shared reflected beam and, per channel, every slot of the
  chain.
- It evaluates the entry surface into the chain's first slot.
- It walks the chain three slots at a time: current `j`, reflected `j+1`,
  refracted `j+2`.
- At each surface, `Simulate` splits the beam's intensity (`density`) into
  a transmitted part, by the material's `throughRate`, and a reflected part.
  The reflected beam's end point is resolved by `HitTest`.
- Under total internal reflection all the light goes to the reflected beam,
  and the walk retreats one slot so that the reflected beam carries it on.

Files:

- `vectors.dfy` (module `Vectors`) covers three-vectors over the reals,
  `Vector3.Reflect`, `Mathf.Clamp01` and `Mathf.Lerp`.
- `refraction.dfy` (module `Refraction`) covers `PrismBeam.Refract`, the Cg
  `refract` formula. Unit length, Snell's law and the
  total-internal-reflection gate are proved about it.
- `beam.dfy` (module `Beams`) covers the `Beam` struct, `Simulate` and
  `HitTest`.
  - `Interact` and `Resolve` are functions that specify them.
  - The methods `Simulate` and `HitTest` follow the C# statement by
    statement and are proved equal to those functions.
  - A `ref Beam` parameter is an input together with a primed output. The
    three slots a call receives are always distinct, so copy-in/copy-out
    equals the in-place update.
- `prism.dfy` (module `Prism`) covers the stepping loop of `SimlateBeams`.
  - `Walk` specifies the loop as a function of the chain, over any `Step`.
    A `Step` is a surface interaction with three beams in and three beams
    plus a flag out.
  - The laws the loop relies on (conservation, halting in place, dark stays
    dark) are predicates on a `Step`. `InteractionLaws` proves them of the
    real interaction.
  - `ChannelTick` and `Spectrum` specify one channel and the whole tick.
  - The class `PrismBeam` holds `firstBeams` and `colorBeamsArray` as
    arrays. Its methods `SimulateChannel` and `SimlateBeams` (named as in
    the source) and the method `StepChain` update those arrays in place and
    are proved against the functions.
  - The constructor and `Init` allocate the two shared slots, the channel
    array and a distinct chain buffer per channel, which establishes the
    layout `SimlateBeams` requires.
  - Lemmas such as `SpectrumChannel`, `SpectrumDarkTail` and
    `SpectrumConservesEnergy` carry the per-channel laws over to the buffers
    the whole tick leaves.

Engine services are parameters, bundled in an `Engine` value:

- `raycast(ray, maxDistance)` stands for `Physics.Raycast` with the culling
  mask. It returns the hit point, the normal and the collider's
  `PrismMaterial`, if it has one.
- `sqrt` stands for `Mathf.Sqrt`. Lemmas that need it assume only
  `IsSqrt(sqrt)`: the result is a non-negative root.

Behaviour of the source that the model keeps as written:

- A hit on a collider without a material returns false and leaves all three
  beams unchanged, including the incident beam's end point.
- On a miss, the incident beam's end point is placed along its own ray, not
  along the reversed query ray used for a beam inside the prism.
- The last slot of a chain is only ever written as a refracted beam, so its
  end point is never resolved.
- Under total internal reflection the reflected beam's end point is not
  resolved.
- The ratio handed to `Refract` is the material's index on entry and its
  reciprocal on exit, while the Cg formula reads it as incident over
  transmitted index. With an index above 1 a ray entering the prism
  therefore bends away from the normal, and total internal reflection can
  happen on entry but never inside the prism. The material's own source is
  not part of this model, so whether it stores the reciprocal index is open.

## Model

| member | source | states |
|---|---|---|
| Vectors.Reflect | Assets/Prism/PrismBeam.cs:133 | about a unit normal, the reflected direction's component along the normal is the negation of the incident one |
| Vectors.ReflectKeepsTangent | Assets/Prism/PrismBeam.cs:133 | a mirror reflection keeps the part tangent to the mirror plane: the cross product with the normal is unchanged, for any normal |
| Vectors.ReflectInvolution | Assets/Prism/PrismBeam.cs:133 | reflecting twice about the same unit normal gives back the incident direction |
| Vectors.ReflectKeepsLength | Assets/Prism/PrismBeam.cs:133 | reflection about a unit normal keeps the direction's length |
| Vectors.Clamp01 | Assets/Prism/PrismBeam.cs:125 | the lerp parameter is clamped into [0, 1] and left alone inside it |
| Vectors.Lerp | Assets/Prism/PrismBeam.cs:125 | Mathf.Lerp(a, b, t) lies between a and b; it is a for t <= 0 and b for t >= 1 |
| Refraction.Refract | Assets/Prism/PrismBeam.cs:202-208 | the result is the zero vector exactly on the branch cost2 <= 0, and the transmitted direction when cost2 > 0 |
| Refraction.RefractIsUnit | Assets/Prism/PrismBeam.cs:202-208 | for a unit incident direction and a unit normal without total internal reflection, the refracted direction is unit |
| Refraction.RefractNonZeroIff | Assets/Prism/PrismBeam.cs:202-208 | for unit vectors the refracted direction is non-zero if and only if cost2 > 0 |
| Refraction.RefractSnell | Assets/Prism/PrismBeam.cs:202-208 | Snell's law: cross(refracted, n) = eta * cross(incident, n) |
| Refraction.RefractNormalIncidence | Assets/Prism/PrismBeam.cs:202-208 | a ray along the reversed unit normal passes unbent, whatever the index |
| Refraction.RefractIndexOne | Assets/Prism/PrismBeam.cs:202-208 | with index 1 any ray meeting the surface from the front (dot(i, n) < 0) passes unchanged, for any normal |
| Refraction.TransmittedIsUnit | Assets/Prism/PrismBeam.cs:202-208 | for unit vectors and cost2 > 0 that combination has unit length |
| Beams.QueryRay | Assets/Prism/PrismBeam.cs:114-119 | outside, the query ray is the beam's ray; inside, it is reversed and starts prismSize along the ray, so it runs back to the beam's origin |
| Beams.Resolve | Assets/Prism/PrismBeam.cs:158-171 | only hitPos changes: it becomes the hit point within 100, or the point 10 along the beam's own ray on a miss |
| Beams.HitTest | Assets/Prism/PrismBeam.cs:158-171 | the imperative HitTest yields exactly Resolve |
| Beams.ChannelIndex | Assets/Prism/PrismBeam.cs:125 | the channel's index Lerp(1, refractRate, weight) lies between 1 and the material's index |
| Beams.FacingNormal | Assets/Prism/PrismBeam.cs:126 | inside the prism the normal is the negated hit normal, outside it is the hit normal; its length is kept, so a unit normal stays unit |
| Beams.RelativeIndex | Assets/Prism/PrismBeam.cs:127 | the ratio is positive; outside it is the channel's index, inside its reciprocal; for a material with index at least 1 it is at least 1 going in and at most 1 going out |
| Beams.Interact | Assets/Prism/PrismBeam.cs:111-156 | the result is true exactly on a hit with a material; a miss sets only current.hitPos (10 along its own ray); a hit without a material changes nothing; the incident beam keeps ray, density and side; on success the two densities sum to the incident density |
| Beams.Simulate | Assets/Prism/PrismBeam.cs:111-156 | the imperative Simulate on three ref slots yields exactly Interact's beams and result |
| Beams.InteractHit | Assets/Prism/PrismBeam.cs:126-137 | on a hit with a material: all three take mat.prismSize; current ends at the hit point; both new beams start there; reflect keeps the side and refract crosses it; directions are Reflect and Refract with the flipped normal and inverted index inside |
| Beams.InteractSplit | Assets/Prism/PrismBeam.cs:139-149 | non-zero refracted direction: refract gets d*throughRate, reflect d*(1-throughRate) and is resolved; zero direction: refract gets 0, reflect all of d, and neither end point is resolved; the refracted beam's end point is never resolved |
| Beams.InteractTotalInternalReflection | Assets/Prism/PrismBeam.cs:139-149 | for unit vectors the magnitude test is the physical one: cost2 <= 0 gives refract 0 and reflect d, cost2 > 0 gives the throughRate split |
| Beams.InteractKeepsUnitDirections | Assets/Prism/PrismBeam.cs:133-134 | unit directions stay unit after a hit, or the refracted one is zero, so Unity's normalisation of ray directions changes nothing |
| Prism.InteractionLaws | Assets/Prism/PrismBeam.cs:111-156 | a channel's interaction conserves intensity, keeps the incident intensity, leaves both slots alone when it fails, and lights nothing from a dark beam |
| Prism.InteractBounded | Assets/Prism/PrismBeam.cs:139-149 | with throughRate in [0, 1], both new intensities lie in [0, d] |
| Prism.ShareBounded | Assets/Prism/PrismBeam.cs:141-142 | a density d >= 0 split by a fraction t in [0, 1], or passed whole to the reflected beam, gives two shares in [0, d] |
| Prism.InteractionSplitsNonNegative | Assets/Prism/PrismBeam.cs:141-142 | with throughRate in [0, 1], a non-negative intensity splits into non-negative parts |
| Prism.Walk | Assets/Prism/PrismBeam.cs:96-106 | the loop writes no slot before its start, stops on an index inside the chain, and the slots where light leaves lie between start and stop in strictly increasing order, so none is counted twice |
| Prism.WalkConservesEnergy | Assets/Prism/PrismBeam.cs:96-106 | the slots where light leaves the chain carry exactly the starting intensity |
| Prism.WalkDarkTail | Assets/Prism/PrismBeam.cs:96-106 | slots after the final current beam that started dark stay dark |
| Prism.WalkStaysDark | Assets/Prism/PrismBeam.cs:96-106 | a dark chain stays dark |
| Prism.WalkIntensityBounded | Assets/Prism/PrismBeam.cs:96-106 | every intensity stays within [0, D], D the starting intensity |
| Prism.WalkRetreat | Assets/Prism/PrismBeam.cs:99-102 | after a successful step with a dark refracted slot the loop continues from j+1, which holds the whole intensity on the incident side |
| Prism.StepChain | Assets/Prism/PrismBeam.cs:96-106 | the in-place while loop leaves the buffer equal to Walk's result (bounds and termination are checked on the way) |
| Prism.Darken | Assets/Prism/PrismBeam.cs:91-92 | every slot's density becomes 0 and nothing else changes |
| Prism.Entry | Assets/Prism/PrismBeam.cs:94 | the entry surface keeps the incident intensity, splits it between the shared reflected beam and the chain's first slot when it proceeds, and otherwise leaves that slot dark |
| Prism.ChannelWalk | Assets/Prism/PrismBeam.cs:95-107 | the walk of a channel keeps the chain's length, stops inside it, and starts from the intensity the entry surface transmitted |
| Prism.ChannelTick | Assets/Prism/PrismBeam.cs:88-107 | a channel keeps the shared pair at two beams and its chain at its length, and the shared incident beam keeps its intensity |
| Prism.ChannelConservesEnergy | Assets/Prism/PrismBeam.cs:94-107 | the shared reflected beam plus the chain's exit slots carry the incident intensity; if the entry surface is missed the whole chain is dark |
| Prism.ChannelDarkTail | Assets/Prism/PrismBeam.cs:91-107 | after a channel, every slot past its final current beam is dark, whatever it held before |
| Prism.Spectrum | Assets/Prism/PrismBeam.cs:83-109 | the channels run in order over any per-channel tick; channels not yet run are untouched; before the first, firstBeams[0] is kept and firstBeams[1] is kept except that its density becomes 0 |
| Prism.ChannelOfLaws | Assets/Prism/PrismBeam.cs:86-108 | the real channel tick keeps the shared pair at two beams, each chain at its length and the incident beam's intensity |
| Prism.SpectrumKeepsIncident | Assets/Prism/PrismBeam.cs:83-109 | through every channel the shared pair stays two beams, the incident beam keeps its intensity and every chain keeps its length |
| Prism.SpectrumFrame | Assets/Prism/PrismBeam.cs:86-108 | running channel i leaves the chains of earlier channels alone |
| Prism.SpectrumSettled | Assets/Prism/PrismBeam.cs:86-108 | once channel k has run, its chain is final: later channels do not touch it |
| Prism.SpectrumChannel | Assets/Prism/PrismBeam.cs:86-108 | channel k's final chain and the shared pair after it are exactly its own ChannelTick on the pair the earlier channels left, whose incident beam still has the starting intensity |
| Prism.SpectrumDarkTail | Assets/Prism/PrismBeam.cs:91-108 | after the whole tick, every slot of every chain past that channel's final current beam is dark |
| Prism.SpectrumConservesEnergy | Assets/Prism/PrismBeam.cs:94-108 | after the whole tick, for each channel whose entry surface splits the beam, the shared reflected beam it left plus its chain's exit slots carry the incident intensity; a channel whose entry surface does not split the beam ends all dark |
| Prism.PrismBeam.constructor | Assets/Prism/PrismBeam.cs:10-29 | a component with seven channel weights, then Init: the layout is valid, the weights are the given ones and every chain has refCount slots |
| Prism.PrismBeam.Init | Assets/Prism/PrismBeam.cs:22-29 | firstBeams and colorBeamsArray are reallocated exactly when their length is not 2 and 7 (kept weights otherwise, weight 0 in a new array); every channel gets a fresh chain of refCount slots; the layout is valid |
| Prism.PrismBeam.AllocateChains | Assets/Prism/PrismBeam.cs:28-29 | every channel gets a fresh, distinct chain of refCount slots and keeps its weight |
| Prism.PrismBeam.SimulateChannel | Assets/Prism/PrismBeam.cs:88-107 | resetting, the entry surface and the in-place walk leave firstBeams and the chain equal to ChannelTick |
| Prism.PrismBeam.SimulateColor | Assets/Prism/PrismBeam.cs:86-107 | one pass of the channel loop: firstBeams and channel i's chain become its ChannelTick; the other chains and all weights stay |
| Prism.PrismBeam.SimlateBeams | Assets/Prism/PrismBeam.cs:83-109 | the whole tick leaves firstBeams and the sequence of all seven chains equal to Spectrum with the real channel tick and keeps the component's layout valid |

## Left out

- RenderBeams, OnDrawGizmos, BeamVfx and BeamVfxConst only hand values to rendering APIs and are not modelled.
- Start, Update and SetDensity are lifecycle and editor glue (instantiating effects, reading the transform) and are not modelled; Init's allocation is modelled, its instantiation of visual effects is not.
- Prism.PrismBeam.Init: requires refCount >= 1, because a chain of 0 slots makes SimlateBeams index beams[0] out of range; null fields are modelled as arrays of the wrong length, which Init treats the same way.
- Physics.Raycast, the culling mask and GetComponent<PrismMaterial> are the engine's; they are the `raycast` parameter of Engine.
- Float arithmetic is modelled over the reals: rounding, exact float comparisons such as `density == 0` and Mathf.Sqrt's precision are not captured.
- Beams.Interact: Unity's Ray normalises a direction when it is assigned; the model keeps directions as computed, and InteractKeepsUnitDirections shows this is the same for unit inputs.
- Beams.Interact: `0 < magnitude` is modelled as "not the zero vector", which is the same over the reals.
- A refractive index of 0 or less (which would make `1f / refractRate` infinite or flip the normal's meaning) is excluded by the type Index.
- Refraction.RefractIsUnit: requires unit incident direction and normal, as Unity's normalised rays and surface normals provide; the source states no such requirement.
- Prism.WalkIntensityBounded: requires every material's throughRate to be in [0, 1]; the source does not check it.
- Prism.PrismBeam.SimlateBeams: requires Valid (two shared beams, seven channels, distinct non-empty chain buffers); a chain of length 0 would make the source index out of range.
- ColorBeams.color only matters to rendering and is not a field of the model.
- Running a tick twice with unchanged inputs is not proved to give the same result. No end point (hitPos) is ever read, so stale end points do not matter. But a tick sets the prismSize of firstBeams[0], which the next tick reads when that beam is inside the prism. And when the entry surface is missed, the chain's first slot keeps the fields of an earlier tick, which the walk rewrites; that only changes dark beams.
