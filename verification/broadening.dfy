/** The energy-to-depth half of mod3.broadening: every sample of the
    convolved energy profile is placed at a depth by inverting the linear
    stopping law layer by layer, and the layer-contribution counters are
    normalised. The Gaussian, the Lorentzian, their convolution and the
    1501-point grid are not modelled; the convolved samples are an input. */
module Broadening {
  import opened Layers
  import opened Resonance

  /** One sample of the convolved energy profile: energy (keV) and
      intensity. */
  datatype Sample = Sample(energy: real, intensity: real)

  /** One remapped sample: its depth (TFU), the intensity it keeps, and
      where its energy falls in the target. */
  datatype Mapped = Mapped(depth: real, intensity: real, hit: Hit)

  /** The outcome of one broadening call. `variance` is the squared
      standard deviation of the combined Gaussian and `centerEnergy` the
      energy its grid is centred on; `center` is the resonance depth. */
  datatype BroadeningResult = BroadeningResult(
    variance: real,
    centerEnergy: real,
    center: real,
    depths: seq<real>,
    intensities: seq<real>,
    contributions: seq<real>,
    escaped: real)

  /** np.sign on an integer difference. */
  function Sign(x: int): real {
    if x > 0 then 1.0 else if x < 0 then -1.0 else 0.0
  }

  /** Loss needed to bring a sample at energy eVal down to the resonance:
      the incident offset minus the sample's own offset from it. */
  function SampleLoss(eIn: real, eVal: real): real {
    (eIn - ResonanceEnergy) - (ResonanceEnergy - eVal)
  }

  /** Where a sample's energy falls, searched as the source does with the
      shifted incident energy. */
  function SampleHit(eIn: real, eLoss: seq<real>, eVal: real): Hit {
    FindLayerIndex(eIn - (ResonanceEnergy - eVal), eLoss)
  }

  /** Depth of a sample whose energy falls inside layer k, in the four
      cases of the source: another layer than the resonance layer, a layer
      behind the front when the resonance lies before the target, any layer
      when it lies behind the target, and the plain shift otherwise. */
  function InTargetDepth(t: Target, eLoss: seq<real>, h: Hit, center: real,
                         deltaEIn: real, elossValue: real, k: nat): real
    requires |eLoss| == |t| && HitDivisible(t, h) && k < |t| && t[k].stopping != 0.0
  {
    if h.InLayer? && k != h.index then
      var i := h.index;
      var lo := if i <= k then i else k;
      var hi := if i <= k then k else i;
      var lowLoss := Min(deltaEIn, elossValue);
      var highLoss := Max(deltaEIn, elossValue);
      var fullLayers := if k - i >= 2 || i - k >= 2 then RangeDensity(t, lo + 1, hi) else 0.0;
      center + Sign(k - i) * (fullLayers
                              + Abs(lowLoss - eLoss[lo]) / t[lo].stopping
                              + Abs(highLoss - eLoss[hi - 1]) / t[hi].stopping)
    else if k > 0 && h.FrontEscape? then
      RangeDensity(t, 0, k) + (elossValue - eLoss[k - 1]) / t[k].stopping
    else if h.BackEscape? then
      center - RangeDensity(t, k + 1, |t|) + (elossValue - eLoss[k]) / t[k].stopping
    else
      center + (elossValue - deltaEIn) / t[k].stopping
  }

  /** One pass of the remapping loop body. Front escapes keep their
      intensity and back escapes lose it; both get an extrapolated depth
      using layer 0's stopping power. A sample inside the target is placed
      with the stopping powers of its own layer and of the resonance layer,
      which the first-match search guarantees are nonzero. */
  function RemapSample(eIn: real, t: Target, eLoss: seq<real>, h: Hit, center: real, s: Sample): (m: Mapped)
    requires FrontDivisible(t) && eLoss == LossAxis(t) && HitDivisible(t, h)
    ensures m.hit == SampleHit(eIn, eLoss, s.energy)
    ensures m.intensity == if m.hit.BackEscape? then 0.0 else s.intensity
  {
    var deltaEIn := eIn - ResonanceEnergy;
    var deltaE := ResonanceEnergy - s.energy;
    var elossValue := deltaEIn - deltaE;
    var newHit := FindLayerIndex(eIn - deltaE, eLoss);
    match newHit
    case FrontEscape =>
      Mapped(elossValue / t[0].stopping, s.intensity, newHit)
    case BackEscape =>
      Mapped(TotalDensity(t) + (elossValue - SeqMax(eLoss)) / t[0].stopping, 0.0, newHit)
    case InLayer(k) =>
      HitDivides(t, eIn - deltaE);
      Mapped(InTargetDepth(t, eLoss, h, center, deltaEIn, elossValue, k), s.intensity, newHit)
  }

  // ---------------------------------------------------------------------
  // Layer contributions

  /** The counters as the loop leaves them: they are reset on every pass,
      so only the last sample is counted. */
  function LastCounts(n: nat, last: Hit): seq<real> {
    seq(n, k requires 0 <= k < n => if last == InLayer(k) then 1.0 else 0.0)
  }

  lemma {:induction false} LastCountsSum(n: nat, last: Hit)
    ensures Sum(LastCounts(n, last)) == if last.InLayer? && last.index < n then 1.0 else 0.0
  {
    if n > 0 {
      var c := LastCounts(n, last);
      assert c == LastCounts(n - 1, last) + [c[n - 1]];
      SumAppend(LastCounts(n - 1, last), [c[n - 1]]);
      LastCountsSum(n - 1, last);
    }
  }

  /** The normalisation of the source: divide the counters by their total
      with the escape counter, then divide the escape counter by the new
      sum. Returns the contributions and the escape fraction. */
  function Normalise(n: nat, last: Hit): (r: (seq<real>, real))
    requires HitFits(last, n)
    ensures |r.0| == n
    ensures Sum(r.0) + r.1 == 1.0
    ensures forall k :: 0 <= k < n ==> r.0[k] == if last == InLayer(k) then 1.0 else 0.0
    ensures r.1 == if last.InLayer? then 0.0 else 1.0
  {
    var counts := LastCounts(n, last);
    var outOfTarget := if last.InLayer? then 0.0 else 1.0;
    LastCountsSum(n, last);
    var total := Sum(counts) + outOfTarget;
    var contributions := seq(n, k requires 0 <= k < n => counts[k] / total);
    assert contributions == counts;
    (contributions, outOfTarget / (Sum(contributions) + outOfTarget))
  }

  /** The remapping loop over all samples, followed by the normalisation.
      An empty sample list leaves the counters unbound. */
  function Remap(eIn: real, t: Target, samples: seq<Sample>): (r: Result<(seq<Mapped>, seq<real>, real)>)
    requires FrontDivisible(t)
    ensures r.Err? <==> |samples| == 0
    ensures r.Ok? ==> |r.value.0| == |samples| && |r.value.1| == |t|
    ensures r.Ok? ==> Sum(r.value.1) + r.value.2 == 1.0
    ensures r.Ok? ==>
              var last := SampleHit(eIn, LossAxis(t), samples[|samples| - 1].energy);
              && (forall k :: 0 <= k < |t| ==> r.value.1[k] == if last == InLayer(k) then 1.0 else 0.0)
              && r.value.2 == if last.InLayer? then 0.0 else 1.0
    ensures r.Ok? ==> forall l :: 0 <= l < |samples| ==>
              r.value.0[l].hit == SampleHit(eIn, LossAxis(t), samples[l].energy)
              && r.value.0[l].intensity == if r.value.0[l].hit.BackEscape? then 0.0 else samples[l].intensity
  {
    var eLoss := LossAxis(t);
    var h := FindLayerIndex(eIn, eLoss);
    HitDivides(t, eIn);
    var center := FindTotalThickness(eIn, eLoss, h, t);
    var mapped := seq(|samples|, l requires 0 <= l < |samples| => RemapSample(eIn, t, eLoss, h, center, samples[l]));
    if |samples| == 0 then Err(Unbound)
    else
      var norm := Normalise(|t|, mapped[|samples| - 1].hit);
      Ok((mapped, norm.0, norm.1))
  }

  /** The modelled part of mod3.broadening: widths, centre energy, centre
      depth and the remapped profile. */
  function Broaden(eIn: real, t: Target, deltaB: real, doppler: bool, law: StraggLaw,
                   samples: seq<Sample>): (r: Result<BroadeningResult>)
    requires FrontDivisible(t)
    ensures r.Ok? ==> Sum(r.value.contributions) + r.value.escaped == 1.0
    ensures r.Ok? ==> |r.value.depths| == |r.value.intensities| == |samples|
    ensures r.Ok? ==> |r.value.contributions| == |t|
    ensures r.Ok? ==> r.value.variance >= deltaB * deltaB
    ensures r.Ok? <==> WidthVariance(eIn, t, deltaB, doppler, law).Ok? && |samples| > 0
  {
    var eLoss := LossAxis(t);
    var h := FindLayerIndex(eIn, eLoss);
    var variance :- WidthVariance(eIn, t, deltaB, doppler, law);
    DopplerOffNeverWider(eIn, t, deltaB, law);
    WidthAtLeastBeam(eIn, t, deltaB, doppler, law);
    var centerEnergy := CenterEnergy(eIn, eLoss);
    HitDivides(t, eIn);
    var center := FindTotalThickness(eIn, eLoss, h, t);
    var remapped :- Remap(eIn, t, samples);
    var depths := seq(|remapped.0|, l requires 0 <= l < |remapped.0| => remapped.0[l].depth);
    var intensities := seq(|remapped.0|, l requires 0 <= l < |remapped.0| => remapped.0[l].intensity);
    Ok(BroadeningResult(variance, centerEnergy, center, depths, intensities, remapped.1, remapped.2))
  }

  /** The combined width is never narrower than the beam alone. */
  lemma WidthAtLeastBeam(eIn: real, t: Target, deltaB: real, doppler: bool, law: StraggLaw)
    requires FrontDivisible(t)
    ensures WidthVariance(eIn, t, deltaB, doppler, law).Ok? ==>
              WidthVariance(eIn, t, deltaB, doppler, law).value >= deltaB * deltaB
  {
    var eLoss := LossAxis(t);
    var h := FindLayerIndex(eIn, eLoss);
    if doppler && WidthVariance(eIn, t, deltaB, doppler, law).Ok? {
      var deltaD := DopplerWidth(t[DopplerLayer(h, |t|)]).value;
      assert deltaD * deltaD >= 0.0;
    }
  }

  // ---------------------------------------------------------------------
  // The depth of a remapped sample lies in the layer its energy falls in

  lemma AddFractions(a: real, b: real, s: real)
    requires s != 0.0
    ensures a / s + b / s == (a + b) / s
  {
  }

  /** Crossing a whole layer costs its own loss, which the stopping power
      turns back into the layer's areal density. */
  lemma LayerLossToDensity(t: Target, k: nat)
    requires Physical(t) && k < |t|
    ensures (PrefixLoss(t, k + 1) - PrefixLoss(t, k)) / t[k].stopping == t[k].arealDensity
  {
    assert PrefixLoss(t, k + 1) - PrefixLoss(t, k) == t[k].stopping * t[k].arealDensity;
  }

  /** A loss between the entry and exit losses of layer k, measured from
      its front face, lands inside layer k's depth interval. */
  lemma ForwardDepth(t: Target, k: nat, v: real)
    requires Physical(t) && k < |t|
    requires PrefixLoss(t, k) <= v <= PrefixLoss(t, k + 1)
    ensures PrefixDensity(t, k) <= PrefixDensity(t, k) + (v - PrefixLoss(t, k)) / t[k].stopping <= PrefixDensity(t, k + 1)
  {
    assert PrefixLoss(t, k + 1) == PrefixLoss(t, k) + t[k].stopping * t[k].arealDensity;
    DivideWithin(v - PrefixLoss(t, k), t[k].stopping, t[k].arealDensity);
  }

  /** The same, measured back from layer k's back face. */
  lemma BackwardDepth(t: Target, k: nat, v: real)
    requires Physical(t) && k < |t|
    requires PrefixLoss(t, k) <= v <= PrefixLoss(t, k + 1)
    ensures PrefixDensity(t, k) <= PrefixDensity(t, k + 1) - (PrefixLoss(t, k + 1) - v) / t[k].stopping <= PrefixDensity(t, k + 1)
  {
    assert PrefixLoss(t, k + 1) == PrefixLoss(t, k) + t[k].stopping * t[k].arealDensity;
    DivideWithin(PrefixLoss(t, k + 1) - v, t[k].stopping, t[k].arealDensity);
  }

  lemma LossesNonNegative(t: Target)
    requires Physical(t)
    ensures forall i :: 0 <= i < |t| ==> Loss(t[i]) >= 0.0
  {
    forall i | 0 <= i < |t|
      ensures Loss(t[i]) >= 0.0
    {
      PhysicalLossPositive(t, i);
    }
  }

  /** Where a hit places a loss on the cumulative loss axis. */
  lemma HitBrackets(t: Target, d: real, k: nat)
    requires Physical(t) && k < |t|
    requires d >= 0.0 && FirstReachingHit(d, LossAxis(t)) == InLayer(k)
    ensures PrefixLoss(t, k) <= d <= PrefixLoss(t, k + 1)
    ensures k > 0 ==> PrefixLoss(t, k) < d
  {
    var e := LossAxis(t);
    if k > 0 {
      assert e[k - 1] < d;
    }
  }

  /** FindLayerIndex once the front escape is ruled out. */
  function FirstReachingHit(d: real, eLoss: seq<real>): Hit {
    FindLayerIndex(d + ResonanceEnergy, eLoss)
  }

  lemma SameLayerDepth(t: Target, i: nat, d: real, v: real, center: real)
    requires Physical(t) && i < |t|
    requires PrefixLoss(t, i) <= d <= PrefixLoss(t, i + 1)
    requires PrefixLoss(t, i) <= v <= PrefixLoss(t, i + 1)
    requires center == PrefixDensity(t, i) + (d - PrefixLoss(t, i)) / t[i].stopping
    ensures PrefixDensity(t, i) <= center + (v - d) / t[i].stopping <= PrefixDensity(t, i + 1)
  {
    AddFractions(d - PrefixLoss(t, i), v - d, t[i].stopping);
    ForwardDepth(t, i, v);
  }

  lemma DeeperLayerDepth(t: Target, i: nat, k: nat, d: real, v: real, center: real)
    requires Physical(t) && i < k < |t|
    requires PrefixLoss(t, i) <= d <= PrefixLoss(t, i + 1)
    requires PrefixLoss(t, k) <= v <= PrefixLoss(t, k + 1)
    requires center == PrefixDensity(t, i) + (d - PrefixLoss(t, i)) / t[i].stopping
    ensures var x := center + (RangeDensity(t, i + 1, k)
                               + (PrefixLoss(t, i + 1) - d) / t[i].stopping
                               + (v - PrefixLoss(t, k)) / t[k].stopping);
            PrefixDensity(t, k) <= x <= PrefixDensity(t, k + 1)
  {
    AddFractions(d - PrefixLoss(t, i), PrefixLoss(t, i + 1) - d, t[i].stopping);
    LayerLossToDensity(t, i);
    assert center + (PrefixLoss(t, i + 1) - d) / t[i].stopping == PrefixDensity(t, i + 1);
    ForwardDepth(t, k, v);
  }

  lemma ShallowerLayerDepth(t: Target, i: nat, k: nat, d: real, v: real, center: real)
    requires Physical(t) && k < i < |t|
    requires PrefixLoss(t, i) <= d <= PrefixLoss(t, i + 1)
    requires PrefixLoss(t, k) <= v <= PrefixLoss(t, k + 1)
    requires center == PrefixDensity(t, i) + (d - PrefixLoss(t, i)) / t[i].stopping
    ensures var x := center - (RangeDensity(t, k + 1, i)
                               + (PrefixLoss(t, k + 1) - v) / t[k].stopping
                               + (d - PrefixLoss(t, i)) / t[i].stopping);
            PrefixDensity(t, k) <= x <= PrefixDensity(t, k + 1)
  {
    BackwardDepth(t, k, v);
  }

  /** Depth of a sample inside the target when the resonance itself lies
      inside layer i. */
  lemma ResonanceInsideDepth(t: Target, eIn: real, i: nat, k: nat, v: real)
    requires Physical(t) && i < |t| && k < |t|
    requires FindLayerIndex(eIn, LossAxis(t)) == InLayer(i)
    requires v >= 0.0 && FirstReachingHit(v, LossAxis(t)) == InLayer(k)
    ensures var e := LossAxis(t);
            var c := FindTotalThickness(eIn, e, InLayer(i), t);
            var x := InTargetDepth(t, e, InLayer(i), c, eIn - ResonanceEnergy, v, k);
            PrefixDensity(t, k) <= x <= PrefixDensity(t, k + 1)
  {
    var e := LossAxis(t);
    var d := eIn - ResonanceEnergy;
    var c := FindTotalThickness(eIn, e, InLayer(i), t);
    LossesNonNegative(t);
    assert d >= 0.0;
    assert FirstReachingHit(d, e) == InLayer(i);
    HitBrackets(t, d, i);
    HitBrackets(t, v, k);
    assert c == PrefixDensity(t, i) + (d - PrefixLoss(t, i)) / t[i].stopping;
    if k == i {
      SameLayerDepth(t, i, d, v, c);
    } else if i < k {
      InsideDeeper(t, i, k, d, v, c);
    } else {
      InsideShallower(t, i, k, d, v, c);
    }
  }

  /** ResonanceInsideDepth for a sample in a deeper layer than the
      resonance. */
  lemma InsideDeeper(t: Target, i: nat, k: nat, d: real, v: real, c: real)
    requires Physical(t) && i < k < |t|
    requires PrefixLoss(t, i) <= d <= PrefixLoss(t, i + 1)
    requires PrefixLoss(t, k) < v <= PrefixLoss(t, k + 1)
    requires c == PrefixDensity(t, i) + (d - PrefixLoss(t, i)) / t[i].stopping
    ensures var x := InTargetDepth(t, LossAxis(t), InLayer(i), c, d, v, k);
            PrefixDensity(t, k) <= x <= PrefixDensity(t, k + 1)
  {
    var e := LossAxis(t);
    PrefixLossMonotone(t, i + 1, k);
    assert d < v;
    assert Abs(d - e[i]) == PrefixLoss(t, i + 1) - d;
    assert Abs(v - e[k - 1]) == v - PrefixLoss(t, k);
    assert (if k - i >= 2 || i - k >= 2 then RangeDensity(t, i + 1, k) else 0.0) == RangeDensity(t, i + 1, k);
    DeeperLayerDepth(t, i, k, d, v, c);
  }

  /** ResonanceInsideDepth for a sample in a shallower layer than the
      resonance. */
  lemma InsideShallower(t: Target, i: nat, k: nat, d: real, v: real, c: real)
    requires Physical(t) && k < i < |t|
    requires PrefixLoss(t, i) < d <= PrefixLoss(t, i + 1)
    requires PrefixLoss(t, k) <= v <= PrefixLoss(t, k + 1)
    requires c == PrefixDensity(t, i) + (d - PrefixLoss(t, i)) / t[i].stopping
    ensures var x := InTargetDepth(t, LossAxis(t), InLayer(i), c, d, v, k);
            PrefixDensity(t, k) <= x <= PrefixDensity(t, k + 1)
  {
    var e := LossAxis(t);
    PrefixLossMonotone(t, k + 1, i);
    assert v < d;
    assert Abs(v - e[k]) == PrefixLoss(t, k + 1) - v;
    assert Abs(d - e[i - 1]) == d - PrefixLoss(t, i);
    assert (if k - i >= 2 || i - k >= 2 then RangeDensity(t, k + 1, i) else 0.0) == RangeDensity(t, k + 1, i);
    ShallowerLayerDepth(t, i, k, d, v, c);
  }

  /** Depth of a sample inside the target when the resonance lies before or
      behind the target. */
  lemma ResonanceOutsideDepth(t: Target, eIn: real, k: nat, v: real)
    requires Physical(t) && k < |t|
    requires !FindLayerIndex(eIn, LossAxis(t)).InLayer?
    requires v >= 0.0 && FirstReachingHit(v, LossAxis(t)) == InLayer(k)
    ensures var e := LossAxis(t);
            var h := FindLayerIndex(eIn, e);
            var c := FindTotalThickness(eIn, e, h, t);
            var x := InTargetDepth(t, e, h, c, eIn - ResonanceEnergy, v, k);
            PrefixDensity(t, k) <= x <= PrefixDensity(t, k + 1)
  {
    var e := LossAxis(t);
    var h := FindLayerIndex(eIn, e);
    var d := eIn - ResonanceEnergy;
    var c := FindTotalThickness(eIn, e, h, t);
    HitBrackets(t, v, k);
    if h.FrontEscape? {
      FrontResonanceDepth(t, d, k, v);
    } else {
      BackResonanceDepth(t, d, k, v);
    }
  }

  lemma BackResonanceDepth(t: Target, d: real, k: nat, v: real)
    requires Physical(t) && k < |t|
    requires PrefixLoss(t, k) <= v <= PrefixLoss(t, k + 1)
    ensures var x := InTargetDepth(t, LossAxis(t), BackEscape, TotalDensity(t), d, v, k);
            PrefixDensity(t, k) <= x <= PrefixDensity(t, k + 1)
  {
    var e := LossAxis(t);
    var x := InTargetDepth(t, e, BackEscape, TotalDensity(t), d, v, k);
    assert x == TotalDensity(t) - RangeDensity(t, k + 1, |t|) + (v - e[k]) / t[k].stopping;
    assert (v - e[k]) / t[k].stopping == -((PrefixLoss(t, k + 1) - v) / t[k].stopping);
    BackwardDepth(t, k, v);
  }

  lemma FrontResonanceDepth(t: Target, d: real, k: nat, v: real)
    requires Physical(t) && k < |t| && d < 0.0
    requires PrefixLoss(t, k) <= v <= PrefixLoss(t, k + 1)
    ensures var x := InTargetDepth(t, LossAxis(t), FrontEscape, d / t[0].stopping, d, v, k);
            PrefixDensity(t, k) <= x <= PrefixDensity(t, k + 1)
  {
    var e := LossAxis(t);
    var x := InTargetDepth(t, e, FrontEscape, d / t[0].stopping, d, v, k);
    if k > 0 {
      assert x == RangeDensity(t, 0, k) + (v - e[k - 1]) / t[k].stopping;
      ForwardDepth(t, k, v);
    } else {
      assert x == d / t[0].stopping + (v - d) / t[0].stopping;
      AddFractions(d, v - d, t[0].stopping);
      ForwardDepth(t, 0, v);
    }
  }

  /** The remap places every sample consistently with the layer its energy
      falls in: inside that layer's depth interval, before the front face
      for a front escape and beyond the back face for a back escape. */
  lemma RemapDepthConsistent(eIn: real, t: Target, s: Sample)
    requires Physical(t)
    ensures var e := LossAxis(t);
            var h := FindLayerIndex(eIn, e);
            var m := RemapSample(eIn, t, e, h, FindTotalThickness(eIn, e, h, t), s);
            && (m.hit.FrontEscape? ==> m.depth < 0.0)
            && (m.hit.BackEscape? ==> m.depth > TotalDensity(t))
            && (m.hit.InLayer? ==> PrefixDensity(t, m.hit.index) <= m.depth <= PrefixDensity(t, m.hit.index + 1))
  {
    var e := LossAxis(t);
    var h := FindLayerIndex(eIn, e);
    var c := FindTotalThickness(eIn, e, h, t);
    var m := RemapSample(eIn, t, e, h, c, s);
    if m.hit.FrontEscape? {
      FrontEscapeDepth(eIn, t, h, c, s);
    } else if m.hit.BackEscape? {
      BackEscapeDepth(eIn, t, h, c, s);
    } else {
      InLayerDepth(eIn, t, s);
    }
  }

  /** Where a depth belongs for a sample with this hit: before the front
      face, beyond the back face, or inside the hit layer. */
  predicate DepthPlaced(t: Target, hit: Hit, x: real)
    requires HitFits(hit, |t|)
  {
    match hit
    case FrontEscape => x < 0.0
    case BackEscape => x > TotalDensity(t)
    case InLayer(k) => PrefixDensity(t, k) <= x <= PrefixDensity(t, k + 1)
  }

  /** Every depth of the broadened profile lies where its sample's energy
      falls in the target: the depth axis handed to the yield integrator is
      consistent with the layer structure. */
  lemma BroadenDepthsPlaced(eIn: real, t: Target, deltaB: real, doppler: bool, law: StraggLaw,
                            samples: seq<Sample>)
    requires Physical(t)
    requires Broaden(eIn, t, deltaB, doppler, law, samples).Ok?
    ensures var b := Broaden(eIn, t, deltaB, doppler, law, samples).value;
            forall l :: 0 <= l < |samples| ==>
              DepthPlaced(t, SampleHit(eIn, LossAxis(t), samples[l].energy), b.depths[l])
  {
    var e := LossAxis(t);
    var h := FindLayerIndex(eIn, e);
    var c := FindTotalThickness(eIn, e, h, t);
    var b := Broaden(eIn, t, deltaB, doppler, law, samples).value;
    var rm := Remap(eIn, t, samples).value;
    assert |rm.0| == |samples|;
    forall l | 0 <= l < |samples|
      ensures DepthPlaced(t, SampleHit(eIn, e, samples[l].energy), b.depths[l])
    {
      assert b.depths[l] == rm.0[l].depth;
      assert rm.0[l] == RemapSample(eIn, t, e, h, c, samples[l]);
      RemapDepthConsistent(eIn, t, samples[l]);
    }
  }

  /** A front escape is placed before the front face. */
  lemma FrontEscapeDepth(eIn: real, t: Target, h: Hit, c: real, s: Sample)
    requires Physical(t) && HitFits(h, |t|)
    requires RemapSample(eIn, t, LossAxis(t), h, c, s).hit.FrontEscape?
    ensures RemapSample(eIn, t, LossAxis(t), h, c, s).depth < 0.0
  {
    var v := SampleLoss(eIn, s.energy);
    assert (eIn - (ResonanceEnergy - s.energy)) - ResonanceEnergy == v;
    assert v < 0.0 && t[0].stopping > 0.0;
  }

  /** A back escape is placed beyond the back face. */
  lemma BackEscapeDepth(eIn: real, t: Target, h: Hit, c: real, s: Sample)
    requires Physical(t) && HitFits(h, |t|)
    requires RemapSample(eIn, t, LossAxis(t), h, c, s).hit.BackEscape?
    ensures RemapSample(eIn, t, LossAxis(t), h, c, s).depth > TotalDensity(t)
  {
    var e := LossAxis(t);
    var v := SampleLoss(eIn, s.energy);
    assert (eIn - (ResonanceEnergy - s.energy)) - ResonanceEnergy == v;
    var mx := SeqMax(e);
    var j :| 0 <= j < |e| && e[j] == mx;
    assert v > mx;
    assert t[0].stopping > 0.0;
    assert (v - mx) / t[0].stopping > 0.0;
  }

  /** A sample whose energy falls in layer k is placed inside layer k. */
  lemma InLayerDepth(eIn: real, t: Target, s: Sample)
    requires Physical(t)
    requires var e := LossAxis(t);
             var h := FindLayerIndex(eIn, e);
             RemapSample(eIn, t, e, h, FindTotalThickness(eIn, e, h, t), s).hit.InLayer?
    ensures var e := LossAxis(t);
            var h := FindLayerIndex(eIn, e);
            var m := RemapSample(eIn, t, e, h, FindTotalThickness(eIn, e, h, t), s);
            PrefixDensity(t, m.hit.index) <= m.depth <= PrefixDensity(t, m.hit.index + 1)
  {
    var e := LossAxis(t);
    var h := FindLayerIndex(eIn, e);
    var c := FindTotalThickness(eIn, e, h, t);
    var v := SampleLoss(eIn, s.energy);
    var m := RemapSample(eIn, t, e, h, c, s);
    var k := m.hit.index;
    assert (eIn - (ResonanceEnergy - s.energy)) - ResonanceEnergy == v;
    assert FirstReachingHit(v, e) == InLayer(k);
    assert m.depth == InTargetDepth(t, e, h, c, eIn - ResonanceEnergy, v, k);
    if h.InLayer? {
      ResonanceInsideDepth(t, eIn, h.index, k, v);
    } else {
      ResonanceOutsideDepth(t, eIn, k, v);
    }
  }
}
