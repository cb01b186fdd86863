/** The stepping loop of PrismBeam.SimlateBeams: per colour channel, reset the
    chain, evaluate the shared entry surface into the chain's first slot, then
    walk the chain three slots at a time (current j, reflected j+1, refracted
    j+2), advancing by two, or by one when the refracted slot is dark so that
    the reflected beam carries the light on. */
module Prism {
  import opened Vectors
  import opened Beams

  /** The number of colour channels. */
  const ChannelCount: nat := 7

  /** The result of walking a chain: the slots, the index `last` of the final
      current beam, and `ends`, the slots where light leaves the chain: every
      reflected beam split off and resolved, and the final current beam. */
  datatype Trace = Trace(beams: seq<Beam>, last: nat, ends: seq<nat>)

  /** One surface interaction, as the loop sees it: three beams in, three
      beams and the proceed flag out. */
  type Step = (Beam, Beam, Beam) -> Outcome

  /** The surface interaction of one colour channel: Simulate with the
      channel's dispersion weight. */
  function Interaction(colorRefractRate: real, e: Engine): Step {
    (current, reflect, refract) => Interact(current, reflect, refract, colorRefractRate, e)
  }

  /** What is not transmitted is reflected. */
  ghost predicate Conserves(step: Step) {
    forall a: Beam, b: Beam, c: Beam :: step(a, b, c).proceed ==>
      step(a, b, c).reflect.density + step(a, b, c).refract.density == a.density
  }

  /** The incident beam keeps its intensity. */
  ghost predicate KeepsIncident(step: Step) {
    forall a: Beam, b: Beam, c: Beam :: step(a, b, c).current.density == a.density
  }

  /** A step that does not proceed leaves the other two slots as they were. */
  ghost predicate HaltsInPlace(step: Step) {
    forall a: Beam, b: Beam, c: Beam :: !step(a, b, c).proceed ==> step(a, b, c).reflect == b && step(a, b, c).refract == c
  }

  /** A dark incident beam lights neither new beam. */
  ghost predicate KeepsDark(step: Step) {
    forall a: Beam, b: Beam, c: Beam :: a.density == 0.0 && step(a, b, c).proceed ==>
      step(a, b, c).reflect.density == 0.0 && step(a, b, c).refract.density == 0.0
  }

  /** A non-negative intensity splits into two non-negative parts. */
  ghost predicate SplitsNonNegative(step: Step) {
    forall a: Beam, b: Beam, c: Beam :: 0.0 <= a.density && step(a, b, c).proceed ==>
      0.0 <= step(a, b, c).reflect.density && 0.0 <= step(a, b, c).refract.density
  }

  /** The interaction of every channel has the first four laws. */
  lemma InteractionLaws(colorRefractRate: real, e: Engine)
    ensures var step := Interaction(colorRefractRate, e);
            Conserves(step) && KeepsIncident(step) && HaltsInPlace(step) && KeepsDark(step)
  {
    var step := Interaction(colorRefractRate, e);
    forall a: Beam, b: Beam, c: Beam | a.density == 0.0 && step(a, b, c).proceed
      ensures step(a, b, c).reflect.density == 0.0 && step(a, b, c).refract.density == 0.0
    {
      InteractSplit(a, b, c, colorRefractRate, e);
    }
  }

  /** Every material the scene can report transmits a fraction in [0, 1]. */
  ghost predicate Transmittances(e: Engine) {
    forall r, d :: e.raycast(r, d).Some? && e.raycast(r, d).value.material.Some? ==>
      0.0 <= e.raycast(r, d).value.material.value.throughRate <= 1.0
  }

  /** One surface interaction divides a non-negative intensity into two
      parts, each within [0, D], when the material's transmittance is a
      fraction. */
  lemma InteractBounded(current: Beam, reflect: Beam, refract: Beam, colorRefractRate: real, e: Engine)
    requires Transmittances(e)
    requires 0.0 <= current.density
    requires HitsMaterial(current, e)
    ensures var o := Interact(current, reflect, refract, colorRefractRate, e);
            0.0 <= o.reflect.density <= current.density && 0.0 <= o.refract.density <= current.density
  {
    var hit := SurfaceHit(current, e).value;
    var mat := hit.material.value;
    assert 0.0 <= mat.throughRate <= 1.0;
    InteractSplit(current, reflect, refract, colorRefractRate, e);
    var o := Interact(current, reflect, refract, colorRefractRate, e);
    ShareBounded(current.density, mat.throughRate, o.refract.density, o.reflect.density,
                 RefractedDirection(current, hit, mat, colorRefractRate, e) != Zero);
  }

  /** The arithmetic of the split: either the throughRate share t and the
      rest, or nothing and everything; both parts lie in [0, d]. */
  lemma ShareBounded(d: real, t: real, refracted: real, reflected: real, split: bool)
    requires 0.0 <= d && 0.0 <= t <= 1.0
    requires split ==> refracted == d * t && reflected == d * (1.0 - t)
    requires !split ==> refracted == 0.0 && reflected == d
    ensures 0.0 <= refracted <= d && 0.0 <= reflected <= d
  {
    if split {
      FractionOfSpan(d, t);
      FractionOfSpan(d, 1.0 - t);
    }
  }

  /** With fractional transmittances the split is into non-negative parts. */
  lemma InteractionSplitsNonNegative(colorRefractRate: real, e: Engine)
    requires Transmittances(e)
    ensures SplitsNonNegative(Interaction(colorRefractRate, e))
  {
    var step := Interaction(colorRefractRate, e);
    forall a: Beam, b: Beam, c: Beam | 0.0 <= a.density && step(a, b, c).proceed
      ensures 0.0 <= step(a, b, c).reflect.density && 0.0 <= step(a, b, c).refract.density
    {
      InteractBounded(a, b, c, colorRefractRate, e);
    }
  }

  /** The chain with the interaction's three beams written back to slots j,
      j+1 and j+2. */
  function Place(s: seq<Beam>, j: nat, o: Outcome): (r: seq<Beam>)
    requires j + 2 < |s|
    ensures |r| == |s|
    ensures r[j] == o.current && r[j + 1] == o.reflect && r[j + 2] == o.refract
    ensures forall k :: 0 <= k < |s| && k != j && k != j + 1 && k != j + 2 ==> r[k] == s[k]
  {
    s[j := o.current][j + 1 := o.reflect][j + 2 := o.refract]
  }

  /** The while loop of SimlateBeams started at index j, as a function of the
      chain. It only writes at or after j, ends on a slot in range, and every
      end slot lies between j and the final current beam. */
  function Walk(s: seq<Beam>, j: nat, step: Step): (t: Trace)
    requires j < |s|
    ensures |t.beams| == |s|
    ensures j <= t.last < |s|
    ensures forall k :: 0 <= k < j ==> t.beams[k] == s[k]
    ensures forall k :: 0 <= k < |t.ends| ==> j <= t.ends[k] <= t.last
    ensures forall a, b :: 0 <= a < b < |t.ends| ==> t.ends[a] < t.ends[b]
    decreases |s| - j
  {
    if j >= |s| - 2 then
      Trace(s, j, [j])
    else
      var o := step(s[j], s[j + 1], s[j + 2]);
      var s' := Place(s, j, o);
      if !o.proceed then
        Trace(s', j, [j])
      else if o.refract.density == 0.0 then
        Walk(s', j + 1, step)
      else
        var t := Walk(s', j + 2, step);
        Trace(t.beams, t.last, [j + 1] + t.ends)
  }

  /** The total intensity of the beams at the slots ks. */
  function EnergyAt(b: seq<Beam>, ks: seq<nat>): real
    requires forall k :: 0 <= k < |ks| ==> ks[k] < |b|
  {
    if ks == [] then 0.0 else b[ks[0]].density + EnergyAt(b, ks[1..])
  }

  /** Energy conservation along a chain: the beams where light leaves the
      chain carry, together, exactly the intensity of the beam the walk
      started from. */
  lemma {:induction false} WalkConservesEnergy(s: seq<Beam>, j: nat, step: Step)
    requires j < |s|
    requires Conserves(step) && KeepsIncident(step)
    ensures var t := Walk(s, j, step);
            EnergyAt(t.beams, t.ends) == s[j].density
    decreases |s| - j
  {
    if j >= |s| - 2 {
      assert Walk(s, j, step) == Trace(s, j, [j]);
      assert EnergyAt(s, [j]) == s[j].density + EnergyAt(s, []);
    } else {
      var o := step(s[j], s[j + 1], s[j + 2]);
      var s' := Place(s, j, o);
      if !o.proceed {
        assert Walk(s, j, step) == Trace(s', j, [j]);
        assert EnergyAt(s', [j]) == s'[j].density + EnergyAt(s', []);
      } else if o.refract.density == 0.0 {
        assert Walk(s, j, step) == Walk(s', j + 1, step);
        WalkConservesEnergy(s', j + 1, step);
      } else {
        WalkConservesEnergy(s', j + 2, step);
        var t' := Walk(s', j + 2, step);
        var ends := [j + 1] + t'.ends;
        assert Walk(s, j, step) == Trace(t'.beams, t'.last, ends);
        assert ends[1..] == t'.ends;
        assert t'.beams[j + 1] == s'[j + 1];
        assert EnergyAt(t'.beams, ends) == s'[j + 1].density + s'[j + 2].density;
      }
    }
  }

  /** Slots the walk never reaches stay dark: if every slot after j is dark
      when the walk starts, every slot after the final current beam is dark
      when it ends. */
  lemma {:induction false} WalkDarkTail(s: seq<Beam>, j: nat, step: Step)
    requires j < |s|
    requires HaltsInPlace(step)
    requires forall k :: j < k < |s| ==> s[k].density == 0.0
    ensures var t := Walk(s, j, step);
            forall k :: t.last < k < |s| ==> t.beams[k].density == 0.0
    decreases |s| - j
  {
    if j < |s| - 2 {
      var o := step(s[j], s[j + 1], s[j + 2]);
      var s' := Place(s, j, o);
      if !o.proceed {
        assert Walk(s, j, step) == Trace(s', j, [j]);
      } else if o.refract.density == 0.0 {
        assert Walk(s, j, step) == Walk(s', j + 1, step);
        WalkDarkTail(s', j + 1, step);
      } else {
        assert forall k :: j + 2 < k < |s| ==> s'[k] == s[k];
        WalkDarkTail(s', j + 2, step);
        var t' := Walk(s', j + 2, step);
        forall k | t'.last < k < |s| ensures t'.beams[k].density == 0.0 {
          assert Walk(s', j + 2, step).beams[k] == t'.beams[k];
        }
        assert Walk(s, j, step) == Trace(t'.beams, t'.last, [j + 1] + t'.ends);
      }
    }
  }

  /** A dark chain stays dark: stepping from a dark beam over dark slots
      lights nothing. */
  lemma {:induction false} WalkStaysDark(s: seq<Beam>, j: nat, step: Step)
    requires j < |s|
    requires KeepsIncident(step) && HaltsInPlace(step) && KeepsDark(step)
    requires forall k :: j <= k < |s| ==> s[k].density == 0.0
    ensures var t := Walk(s, j, step);
            forall k :: j <= k < |s| ==> t.beams[k].density == 0.0
    decreases |s| - j
  {
    if j < |s| - 2 {
      var o := step(s[j], s[j + 1], s[j + 2]);
      var s' := Place(s, j, o);
      if !o.proceed {
        assert Walk(s, j, step) == Trace(s', j, [j]);
      } else {
        // from a dark beam the refracted slot is dark too, so the walk
        // always retreats
        assert Walk(s, j, step) == Walk(s', j + 1, step);
        WalkStaysDark(s', j + 1, step);
        assert Walk(s', j + 1, step).beams[j] == s'[j];
      }
    }
  }

  /** Intensities stay within [0, D], D the intensity of the beam the walk
      starts from, when every split is into non-negative parts and the rest
      of the chain starts dark. */
  lemma {:induction false} WalkIntensityBounded(s: seq<Beam>, j: nat, step: Step)
    requires j < |s|
    requires Conserves(step) && KeepsIncident(step) && HaltsInPlace(step) && SplitsNonNegative(step)
    requires 0.0 <= s[j].density
    requires forall k :: j < k < |s| ==> s[k].density == 0.0
    ensures var t := Walk(s, j, step);
            forall k :: j <= k < |s| ==> 0.0 <= t.beams[k].density <= s[j].density
    decreases |s| - j
  {
    if j < |s| - 2 {
      var o := step(s[j], s[j + 1], s[j + 2]);
      var s' := Place(s, j, o);
      if !o.proceed {
        assert o.reflect == s[j + 1] && o.refract == s[j + 2];
        assert Walk(s, j, step) == Trace(s', j, [j]);
      } else if o.refract.density == 0.0 {
        assert s'[j + 1].density == s[j].density;
        assert Walk(s, j, step) == Walk(s', j + 1, step);
        WalkIntensityBounded(s', j + 1, step);
        assert Walk(s', j + 1, step).beams[j] == s'[j];
      } else {
        assert 0.0 <= o.refract.density;
        assert forall k :: j + 2 < k < |s| ==> s'[k] == s[k];
        WalkIntensityBounded(s', j + 2, step);
        assert Walk(s, j, step).beams == Walk(s', j + 2, step).beams;
        SplitBounded(j, o, Walk(s', j + 2, step).beams, s[j].density);
      }
    }
  }

  /** The bounds of a split step: the incident slot keeps D, the reflected
      slot gets a non-negative part of D, and every later slot is bounded by
      the refracted part. */
  lemma SplitBounded(j: nat, o: Outcome, b: seq<Beam>, D: real)
    requires j + 2 < |b|
    requires 0.0 <= o.reflect.density && 0.0 <= o.refract.density
    requires o.reflect.density + o.refract.density == D && o.current.density == D
    requires b[j] == o.current && b[j + 1] == o.reflect
    requires forall k :: j + 2 <= k < |b| ==> 0.0 <= b[k].density <= o.refract.density
    ensures forall k :: j <= k < |b| ==> 0.0 <= b[k].density <= D
  {
  }

  /** The retreat hand-off: after a successful step whose refracted slot is
      dark (in particular under total internal reflection), the walk goes on
      from the reflected slot j+1, which carries the whole intensity on the
      incident beam's side. */
  lemma WalkRetreat(s: seq<Beam>, j: nat, colorRefractRate: real, e: Engine)
    requires j < |s| - 2
    requires var o := Interact(s[j], s[j + 1], s[j + 2], colorRefractRate, e);
             o.proceed && o.refract.density == 0.0
    ensures var step := Interaction(colorRefractRate, e);
            var s' := Place(s, j, Interact(s[j], s[j + 1], s[j + 2], colorRefractRate, e));
            && Walk(s, j, step) == Walk(s', j + 1, step)
            && s'[j + 1].density == s[j].density
            && s'[j + 1].isInside == s[j].isInside
  {
    InteractHit(s[j], s[j + 1], s[j + 2], colorRefractRate, e);
  }

  /** A chain with every intensity reset to 0 and nothing else changed. */
  function Darken(s: seq<Beam>): (r: seq<Beam>)
    ensures |r| == |s|
    ensures forall k :: 0 <= k < |s| ==> r[k].density == 0.0 && r[k].(density := s[k].density) == s[k]
  {
    seq(|s|, k requires 0 <= k < |s| => s[k].(density := 0.0))
  }

  /** The entry surface, evaluated for one channel: the shared incident beam
      firstBeams[0], the shared reflected slot firstBeams[1], and the reset
      chain's first slot. */
  function Entry(first: seq<Beam>, chain: seq<Beam>, colorRefractRate: real, e: Engine): (o: Outcome)
    requires |first| == 2 && 1 <= |chain|
    // the incident beam keeps its intensity, which the split divides
    ensures o.current.density == first[0].density
    ensures o.proceed ==> o.reflect.density + o.refract.density == first[0].density
    // unless the entry surface splits the beam, the chain's first slot stays dark
    ensures !o.proceed ==> o.refract == Darken(chain)[0] && o.refract.density == 0.0
  {
    Interact(first[0], first[1], Darken(chain)[0], colorRefractRate, e)
  }

  /** The walk of one channel, from the chain after the entry surface. */
  function ChannelWalk(first: seq<Beam>, chain: seq<Beam>, colorRefractRate: real, e: Engine): (t: Trace)
    requires |first| == 2 && 1 <= |chain|
    ensures |t.beams| == |chain| && t.last < |chain|
    // the chain's first slot carries what the entry surface transmitted
    ensures t.beams[0].density == Entry(first, chain, colorRefractRate, e).refract.density
  {
    var o := Entry(first, chain, colorRefractRate, e);
    var s := Darken(chain)[0 := o.refract];
    ChannelFirstSlot(s, colorRefractRate, e);
    Walk(s, 0, Interaction(colorRefractRate, e))
  }

  /** The walk keeps the intensity of the slot it starts from. */
  lemma ChannelFirstSlot(s: seq<Beam>, colorRefractRate: real, e: Engine)
    requires 1 <= |s|
    ensures Walk(s, 0, Interaction(colorRefractRate, e)).beams[0].density == s[0].density
  {
    var step := Interaction(colorRefractRate, e);
    InteractionLaws(colorRefractRate, e);
    if 2 < |s| {
      var o := step(s[0], s[1], s[2]);
      var s' := Place(s, 0, o);
      assert s'[0].density == s[0].density;
      if o.proceed && o.refract.density == 0.0 {
        assert Walk(s, 0, step) == Walk(s', 1, step);
      } else if o.proceed {
        assert Walk(s, 0, step).beams == Walk(s', 2, step).beams;
      }
    }
  }

  /** One iteration of the channel loop: the new shared entry pair and the new
      chain. */
  function ChannelTick(first: seq<Beam>, chain: seq<Beam>, colorRefractRate: real, e: Engine): (r: (seq<Beam>, seq<Beam>))
    requires |first| == 2 && 1 <= |chain|
    ensures |r.0| == 2 && |r.1| == |chain|
    ensures r.0[0].density == first[0].density
  {
    var o := Entry(first, chain, colorRefractRate, e);
    ([o.current, o.reflect], ChannelWalk(first, chain, colorRefractRate, e).beams)
  }

  /** Energy conservation over a whole channel: when the entry surface splits
      the beam, the shared reflected beam and the chain's end beams together
      carry the incident intensity; when it does not, the chain stays dark. */
  lemma ChannelConservesEnergy(first: seq<Beam>, chain: seq<Beam>, colorRefractRate: real, e: Engine)
    requires |first| == 2 && 1 <= |chain|
    ensures var r := ChannelTick(first, chain, colorRefractRate, e);
            var t := ChannelWalk(first, chain, colorRefractRate, e);
            Entry(first, chain, colorRefractRate, e).proceed ==>
              r.0[1].density + EnergyAt(t.beams, t.ends) == first[0].density
    ensures Entry(first, chain, colorRefractRate, e).proceed ||
            forall k :: 0 <= k < |chain| ==> ChannelTick(first, chain, colorRefractRate, e).1[k].density == 0.0
  {
    var o := Entry(first, chain, colorRefractRate, e);
    var s := Darken(chain)[0 := o.refract];
    InteractionLaws(colorRefractRate, e);
    WalkConservesEnergy(s, 0, Interaction(colorRefractRate, e));
    if !o.proceed {
      WalkStaysDark(s, 0, Interaction(colorRefractRate, e));
    }
  }

  /** Reset before stepping: every slot after the channel's final current
      beam is dark after the tick, whatever it held before. */
  lemma ChannelDarkTail(first: seq<Beam>, chain: seq<Beam>, colorRefractRate: real, e: Engine)
    requires |first| == 2 && 1 <= |chain|
    ensures var t := ChannelWalk(first, chain, colorRefractRate, e);
            forall k :: t.last < k < |chain| ==> t.beams[k].density == 0.0
  {
    var o := Entry(first, chain, colorRefractRate, e);
    var s := Darken(chain)[0 := o.refract];
    assert forall k :: 0 < k < |s| ==> s[k] == Darken(chain)[k];
    assert ChannelWalk(first, chain, colorRefractRate, e) == Walk(s, 0, Interaction(colorRefractRate, e));
    InteractionLaws(colorRefractRate, e);
    WalkDarkTail(s, 0, Interaction(colorRefractRate, e));
  }

  /** One channel of the tick, as the channel loop sees it: the shared entry
      pair, the channel's chain and its dispersion weight in; the new pair and
      chain out. */
  type Tick = (seq<Beam>, seq<Beam>, real) -> (seq<Beam>, seq<Beam>)

  /** The channel tick of the scene e. Layouts other than two shared beams
      and a non-empty chain never occur (see PrismBeam.Valid); they are
      passed through unchanged. */
  function ChannelOf(e: Engine): Tick {
    (first, chain, colorRefractRate) =>
      if |first| == 2 && 1 <= |chain| then ChannelTick(first, chain, colorRefractRate, e) else (first, chain)
  }

  /** A tick keeps the layout and the incident beam's intensity. */
  ghost predicate TickLaws(tick: Tick) {
    forall pair: seq<Beam>, chain: seq<Beam>, rate: real :: |pair| == 2 && 1 <= |chain| ==>
      && |tick(pair, chain, rate).0| == 2
      && |tick(pair, chain, rate).1| == |chain|
      && tick(pair, chain, rate).0[0].density == pair[0].density
  }

  /** TickLaws at one argument. */
  lemma TickLawsAt(tick: Tick, pair: seq<Beam>, chain: seq<Beam>, rate: real)
    requires TickLaws(tick) && |pair| == 2 && 1 <= |chain|
    ensures |tick(pair, chain, rate).0| == 2 && |tick(pair, chain, rate).1| == |chain|
    ensures tick(pair, chain, rate).0[0].density == pair[0].density
  {
  }

  lemma ChannelOfLaws(e: Engine)
    ensures TickLaws(ChannelOf(e))
  {
    var tick := ChannelOf(e);
    forall first: seq<Beam>, chain: seq<Beam>, rate: real | |first| == 2 && 1 <= |chain|
      ensures |tick(first, chain, rate).0| == 2 && |tick(first, chain, rate).1| == |chain|
      ensures tick(first, chain, rate).0[0].density == first[0].density
    {
      assert tick(first, chain, rate) == ChannelTick(first, chain, rate, e);
    }
  }

  /** The whole tick after the first i channels: the shared reflected slot is
      reset, then channels 0 .. i-1 run in order, each seeing the shared entry
      pair the previous one left. Channels from i on are untouched. */
  function Spectrum(first: seq<Beam>, chains: seq<seq<Beam>>, rates: seq<real>, tick: Tick, i: nat)
    : (r: (seq<Beam>, seq<seq<Beam>>))
    requires |first| == 2 && i <= |chains| == |rates|
    ensures |r.1| == |chains|
    ensures forall k :: i <= k < |chains| ==> r.1[k] == chains[k]
    // before the first channel only the shared reflected beam is reset
    ensures i == 0 ==> r.0 == [first[0], first[1].(density := 0.0)]
    decreases i
  {
    if i == 0 then
      (first[1 := first[1].(density := 0.0)], chains)
    else
      var prev := Spectrum(first, chains, rates, tick, i - 1);
      var next := tick(prev.0, prev.1[i - 1], rates[i - 1]);
      (next.0, prev.1[i - 1 := next.1])
  }

  /** One more channel of the tick: channel i runs on the shared pair and
      the chain the first i channels left. */
  lemma SpectrumNext(first: seq<Beam>, chains: seq<seq<Beam>>, rates: seq<real>, tick: Tick, i: nat)
    requires |first| == 2 && i < |chains| == |rates|
    ensures var prev := Spectrum(first, chains, rates, tick, i);
            var next := tick(prev.0, prev.1[i], rates[i]);
            Spectrum(first, chains, rates, tick, i + 1) == (next.0, prev.1[i := next.1])
  {
  }

  /** The layout is kept and the incident beam keeps its intensity through
      every channel. */
  lemma {:induction false} SpectrumKeepsIncident(first: seq<Beam>, chains: seq<seq<Beam>>, rates: seq<real>, tick: Tick, i: nat)
    requires |first| == 2 && i <= |chains| == |rates|
    requires forall m :: 0 <= m < |chains| ==> 1 <= |chains[m]|
    requires TickLaws(tick)
    ensures var r := Spectrum(first, chains, rates, tick, i);
            && |r.0| == 2 && r.0[0].density == first[0].density
            && forall m :: 0 <= m < |chains| ==> |r.1[m]| == |chains[m]|
    decreases i
  {
    if i > 0 {
      SpectrumKeepsIncident(first, chains, rates, tick, i - 1);
      var prev := Spectrum(first, chains, rates, tick, i - 1);
      assert |prev.0| == 2 && 1 <= |prev.1[i - 1]|;
      TickLawsAt(tick, prev.0, prev.1[i - 1], rates[i - 1]);
    }
  }

  /** Channel i leaves the chains of earlier channels alone. */
  lemma SpectrumFrame(first: seq<Beam>, chains: seq<seq<Beam>>, rates: seq<real>, tick: Tick, k: nat, i: nat)
    requires |first| == 2 && k < i < |chains| == |rates|
    ensures Spectrum(first, chains, rates, tick, i + 1).1[k] == Spectrum(first, chains, rates, tick, i).1[k]
  {
    SpectrumNext(first, chains, rates, tick, i);
  }

  /** Channel k's chain is settled once channel k has run: later channels do
      not touch it. */
  lemma {:induction false} SpectrumSettled(first: seq<Beam>, chains: seq<seq<Beam>>, rates: seq<real>, tick: Tick, k: nat, i: nat)
    requires |first| == 2 && k < i <= |chains| == |rates|
    ensures Spectrum(first, chains, rates, tick, i).1[k] == Spectrum(first, chains, rates, tick, k + 1).1[k]
    decreases i
  {
    if i > k + 1 {
      SpectrumSettled(first, chains, rates, tick, k, i - 1);
      SpectrumFrame(first, chains, rates, tick, k, i - 1);
    }
  }

  /** Channel k's final chain is what channel k's own tick made of the chain
      it started from, on the shared pair the earlier channels left. */
  lemma SpectrumChannel(first: seq<Beam>, chains: seq<seq<Beam>>, rates: seq<real>, e: Engine, k: nat)
    requires |first| == 2 && k < |chains| == |rates|
    requires forall m :: 0 <= m < |chains| ==> 1 <= |chains[m]|
    ensures var before := Spectrum(first, chains, rates, ChannelOf(e), k).0;
            && |before| == 2 && before[0].density == first[0].density
            && Spectrum(first, chains, rates, ChannelOf(e), |chains|).1[k] == ChannelTick(before, chains[k], rates[k], e).1
            && Spectrum(first, chains, rates, ChannelOf(e), k + 1).0 == ChannelTick(before, chains[k], rates[k], e).0
  {
    ChannelOfLaws(e);
    SpectrumKeepsIncident(first, chains, rates, ChannelOf(e), k);
    SpectrumSettled(first, chains, rates, ChannelOf(e), k, |chains|);
    SpectrumNext(first, chains, rates, ChannelOf(e), k);
  }

  /** Reset before stepping, over the whole tick: in every final chain, the
      slots past the channel's final current beam are dark. */
  lemma SpectrumDarkTail(first: seq<Beam>, chains: seq<seq<Beam>>, rates: seq<real>, e: Engine, k: nat)
    requires |first| == 2 && k < |chains| == |rates|
    requires forall m :: 0 <= m < |chains| ==> 1 <= |chains[m]|
    ensures var before := Spectrum(first, chains, rates, ChannelOf(e), k).0;
            var final := Spectrum(first, chains, rates, ChannelOf(e), |chains|).1[k];
            && |before| == 2
            && final == ChannelWalk(before, chains[k], rates[k], e).beams
            && forall m :: ChannelWalk(before, chains[k], rates[k], e).last < m < |chains[k]| ==> final[m].density == 0.0
  {
    SpectrumChannel(first, chains, rates, e, k);
    ChannelDarkTail(Spectrum(first, chains, rates, ChannelOf(e), k).0, chains[k], rates[k], e);
  }

  /** Energy conservation over the whole tick: for each channel whose entry
      surface splits the beam, the shared reflected beam it leaves and the
      exit slots of its final chain carry the incident intensity; a channel
      whose entry surface does not split the beam ends dark. */
  lemma SpectrumConservesEnergy(first: seq<Beam>, chains: seq<seq<Beam>>, rates: seq<real>, e: Engine, k: nat)
    requires |first| == 2 && k < |chains| == |rates|
    requires forall m :: 0 <= m < |chains| ==> 1 <= |chains[m]|
    ensures var before := Spectrum(first, chains, rates, ChannelOf(e), k).0;
            var after := Spectrum(first, chains, rates, ChannelOf(e), k + 1).0;
            var final := Spectrum(first, chains, rates, ChannelOf(e), |chains|).1[k];
            && |before| == 2 && |after| == 2
            && final == ChannelWalk(before, chains[k], rates[k], e).beams
            && (Entry(before, chains[k], rates[k], e).proceed ==>
                  after[1].density + EnergyAt(final, ChannelWalk(before, chains[k], rates[k], e).ends) == first[0].density)
            && (Entry(before, chains[k], rates[k], e).proceed ||
                  forall m :: 0 <= m < |chains[k]| ==> final[m].density == 0.0)
  {
    var before := Spectrum(first, chains, rates, ChannelOf(e), k).0;
    SpectrumChannel(first, chains, rates, e, k);
    ChannelConservesEnergy(before, chains[k], rates[k], e);
  }

  /** PrismBeam.ColorBeams: the channel's dispersion weight and its chain
      buffer (its display colour only matters to rendering). */
  datatype ColorBeams = ColorBeams(refractRate: real, beams: array<Beam>)

  /** The while loop of SimlateBeams over one chain buffer. */
  method StepChain(beams: array<Beam>, colorRefractRate: real, e: Engine)
    requires 1 <= beams.Length
    modifies beams
    ensures beams[..] == Walk(old(beams[..]), 0, Interaction(colorRefractRate, e)).beams
  {
    ghost var step := Interaction(colorRefractRate, e);
    var j := 0;
    while j < beams.Length - 2
      invariant 0 <= j < beams.Length
      invariant Walk(beams[..], j, step).beams == Walk(old(beams[..]), 0, step).beams
      decreases beams.Length - j
    {
      ghost var s := beams[..];
      // Simulate(ref beams[j], ref beams[++j], ref beams[++j], ...): the
      // arguments are evaluated left to right, so the slots are j, j+1, j+2
      // and j ends two further on.
      var cur := j;
      j := j + 2;
      var current', reflect', refract', proceed := Simulate(beams[cur], beams[cur + 1], beams[cur + 2], colorRefractRate, e);
      beams[cur], beams[cur + 1], beams[cur + 2] := current', reflect', refract';
      assert Outcome(current', reflect', refract', proceed) == step(s[cur], s[cur + 1], s[cur + 2]);
      assert beams[..] == s[cur := current'][cur + 1 := reflect'][cur + 2 := refract'];
      if proceed {
        if beams[j].density == 0.0 {
          j := j - 1;
        }
      } else {
        break;
      }
    }
  }

  class PrismBeam {
    /** The shared incident beam and the shared reflected beam of the entry
        surface. */
    var firstBeams: array<Beam>
    var colorBeamsArray: array<ColorBeams>

    /** As the initialisation sets things up: two shared slots, seven
        channels, each with its own non-empty chain buffer. */
    ghost predicate Valid()
      reads this, colorBeamsArray
    {
      && firstBeams.Length == 2
      && colorBeamsArray.Length == ChannelCount
      && (forall i :: 0 <= i < ChannelCount ==>
            colorBeamsArray[i].beams != firstBeams && 1 <= colorBeamsArray[i].beams.Length)
      && (forall i, k :: 0 <= i < k < ChannelCount ==> colorBeamsArray[i].beams != colorBeamsArray[k].beams)
    }

    ghost function ChainBuffers(): set<array<Beam>>
      reads this, colorBeamsArray
    {
      set i | 0 <= i < colorBeamsArray.Length :: colorBeamsArray[i].beams
    }

    /** The contents of every channel's chain. */
    ghost function Chains(): (r: seq<seq<Beam>>)
      reads this, colorBeamsArray, ChainBuffers()
      ensures |r| == colorBeamsArray.Length
      ensures forall i :: 0 <= i < colorBeamsArray.Length ==> r[i] == colorBeamsArray[i].beams[..]
    {
      seq(colorBeamsArray.Length, i reads this, colorBeamsArray, ChainBuffers()
        => if 0 <= i < colorBeamsArray.Length then colorBeamsArray[i].beams[..] else [])
    }

    /** Every channel's dispersion weight. */
    ghost function Rates(): (r: seq<real>)
      reads this, colorBeamsArray
      ensures |r| == colorBeamsArray.Length
      ensures forall i :: 0 <= i < colorBeamsArray.Length ==> r[i] == colorBeamsArray[i].refractRate
    {
      seq(colorBeamsArray.Length, i reads this, colorBeamsArray
        => if 0 <= i < colorBeamsArray.Length then colorBeamsArray[i].refractRate else 0.0)
    }

    /** A component as deserialised: the seven-slot channel array carries
        the dispersion weights set in the inspector, no buffer is allocated
        yet; then Init runs. */
    constructor(rates: seq<real>, refCount: nat)
      requires |rates| == ChannelCount && 1 <= refCount
      ensures Valid() && Rates() == rates
      ensures forall i :: 0 <= i < ChannelCount ==> colorBeamsArray[i].beams.Length == refCount
    {
      var none := new Beam[0];
      firstBeams := none;
      colorBeamsArray := new ColorBeams[ChannelCount](i requires 0 <= i < ChannelCount => ColorBeams(rates[i], none));
      new;
      Init(refCount);
    }

    /** Init: allocates the two shared slots and the channel array unless they
        already have the right size, then gives every channel a fresh chain
        buffer of refCount slots. Existing dispersion weights are kept; a
        newly allocated channel array has weight 0 everywhere. */
    method Init(refCount: nat)
      requires 1 <= refCount
      modifies this, colorBeamsArray
      ensures Valid()
      ensures old(firstBeams.Length) == 2 ==> firstBeams == old(firstBeams)
      ensures old(firstBeams.Length) != 2 ==> fresh(firstBeams)
      ensures old(colorBeamsArray.Length) == ChannelCount ==> colorBeamsArray == old(colorBeamsArray) && Rates() == old(Rates())
      ensures old(colorBeamsArray.Length) != ChannelCount ==> fresh(colorBeamsArray) && forall i :: 0 <= i < ChannelCount ==> Rates()[i] == 0.0
      ensures forall i :: 0 <= i < ChannelCount ==> fresh(colorBeamsArray[i].beams) && colorBeamsArray[i].beams.Length == refCount
    {
      if firstBeams.Length != 2 {
        firstBeams := new Beam[2];
      }
      if colorBeamsArray.Length != ChannelCount {
        var none := new Beam[0];
        colorBeamsArray := new ColorBeams[ChannelCount](_ => ColorBeams(0.0, none));
      }
      AllocateChains(refCount);
    }

    /** The loop of Init: a fresh chain buffer of refCount slots for every
        channel; weights and the shared slots stay. */
    method AllocateChains(refCount: nat)
      requires colorBeamsArray.Length == ChannelCount
      modifies colorBeamsArray
      ensures forall k :: 0 <= k < ChannelCount ==> colorBeamsArray[k].refractRate == old(colorBeamsArray[k].refractRate)
      ensures forall k :: 0 <= k < ChannelCount ==> fresh(colorBeamsArray[k].beams)
      ensures forall k :: 0 <= k < ChannelCount ==> colorBeamsArray[k].beams.Length == refCount
      ensures forall k, l :: 0 <= k < l < ChannelCount ==> colorBeamsArray[k].beams != colorBeamsArray[l].beams
    {
      for i := 0 to ChannelCount
        invariant forall k :: 0 <= k < ChannelCount ==> colorBeamsArray[k].refractRate == old(colorBeamsArray[k].refractRate)
        invariant forall k :: 0 <= k < i ==> fresh(colorBeamsArray[k].beams)
        invariant forall k :: 0 <= k < i ==> colorBeamsArray[k].beams.Length == refCount
        invariant forall k, l :: 0 <= k < l < i ==> colorBeamsArray[k].beams != colorBeamsArray[l].beams
      {
        var beams := new Beam[refCount];
        assert forall k :: 0 <= k < i ==> colorBeamsArray[k].beams != beams;
        colorBeamsArray[i] := colorBeamsArray[i].(beams := beams);
      }
    }

    /** One channel of SimlateBeams: reset the chain, evaluate the entry
        surface into its first slot, and step the chain. */
    method SimulateChannel(beams: array<Beam>, colorRefractRate: real, e: Engine)
      requires firstBeams.Length == 2 && 1 <= beams.Length && beams != firstBeams
      modifies firstBeams, beams
      ensures (firstBeams[..], beams[..]) == ChannelTick(old(firstBeams[..]), old(beams[..]), colorRefractRate, e)
    {
      for j := 0 to beams.Length
        invariant forall k :: 0 <= k < j ==> beams[k] == old(beams[k]).(density := 0.0)
        invariant forall k :: j <= k < beams.Length ==> beams[k] == old(beams[k])
        invariant firstBeams[..] == old(firstBeams[..])
      {
        beams[j] := beams[j].(density := 0.0);
      }
      ghost var dark := Darken(old(beams[..]));
      assert beams[..] == dark;
      var current', reflect', refract', proceed := Simulate(firstBeams[0], firstBeams[1], beams[0], colorRefractRate, e);
      ghost var o := Entry(old(firstBeams[..]), old(beams[..]), colorRefractRate, e);
      assert o == Outcome(current', reflect', refract', proceed);
      firstBeams[0], firstBeams[1], beams[0] := current', reflect', refract';
      assert firstBeams[..] == [o.current, o.reflect];
      assert beams[..] == dark[0 := o.refract];
      StepChain(beams, colorRefractRate, e);
      assert beams[..] == ChannelWalk(old(firstBeams[..]), old(beams[..]), colorRefractRate, e).beams;
    }

    /** One pass of SimlateBeams' channel loop: channel i's chain and weight
        are read from the channel array and the channel is run; the other
        chains and all weights stay as they were. */
    method SimulateColor(i: nat, e: Engine)
      requires Valid() && i < ChannelCount
      modifies firstBeams, colorBeamsArray[i].beams
      ensures Valid() && Rates() == old(Rates())
      ensures firstBeams[..] == ChannelTick(old(firstBeams[..]), old(Chains())[i], Rates()[i], e).0
      ensures Chains() == old(Chains())[i := ChannelTick(old(firstBeams[..]), old(Chains())[i], Rates()[i], e).1]
    {
      var colorBeams := colorBeamsArray[i];
      var beams := colorBeams.beams;
      var colorRefractRate := colorBeams.refractRate;
      ghost var chains := Chains();
      SimulateChannel(beams, colorRefractRate, e);
      forall k | 0 <= k < ChannelCount
        ensures Chains()[k] == chains[i := beams[..]][k]
      {
        if k != i {
          assert colorBeamsArray[k].beams != beams;
        }
      }
      assert Chains() == chains[i := beams[..]];
    }

    /** PrismBeam.SimlateBeams (named as in the source): one simulation tick
        over the shared entry pair and all seven chains. */
    method SimlateBeams(e: Engine)
      requires Valid()
      modifies firstBeams, ChainBuffers()
      ensures Valid()
      ensures firstBeams[..] == Spectrum(old(firstBeams[..]), old(Chains()), Rates(), ChannelOf(e), ChannelCount).0
      ensures Chains() == Spectrum(old(firstBeams[..]), old(Chains()), Rates(), ChannelOf(e), ChannelCount).1
    {
      ghost var first0 := firstBeams[..];
      ghost var chains0 := Chains();
      ghost var rates := Rates();
      firstBeams[1] := firstBeams[1].(density := 0.0);
      assert firstBeams[..] == Spectrum(first0, chains0, rates, ChannelOf(e), 0).0;
      for i := 0 to ChannelCount
        invariant Valid() && Rates() == rates
        invariant firstBeams[..] == Spectrum(first0, chains0, rates, ChannelOf(e), i).0
        invariant Chains() == Spectrum(first0, chains0, rates, ChannelOf(e), i).1
      {
        ghost var prev := Spectrum(first0, chains0, rates, ChannelOf(e), i);
        assert ChannelOf(e)(prev.0, prev.1[i], rates[i]) == ChannelTick(prev.0, prev.1[i], rates[i], e);
        SimulateColor(i, e);
        SpectrumNext(first0, chains0, rates, ChannelOf(e), i);
      }
    }
  }
}
