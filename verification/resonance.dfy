/** Locating the 6385 keV resonance of 15N + 1H inside a layered target
    and the three widths that broaden it (mod3.py): the cumulative loss
    axis, the first-match layer search with its two escape outcomes, the
    inversion of the linear stopping law from energy to depth, Bragg's rule
    for the effective Z, the Doppler calibration table and the layer list
    that feeds the straggling term. */
module Resonance {
  import opened Layers

  /** Resonance energy of the modelled reaction, in keV. */
  const ResonanceEnergy: real := 6385.0

  /** Where the resonance energy is reached. The source encodes the two
      escapes as the integers -2 and -1 (see Sentinel). */
  datatype Hit = FrontEscape | InLayer(index: nat) | BackEscape

  function Sentinel(h: Hit): int {
    match h
    case FrontEscape => -2
    case BackEscape => -1
    case InLayer(i) => i
  }

  /** Hit values that name a layer of a target with n layers. */
  predicate HitFits(h: Hit, n: nat) {
    h.InLayer? ==> h.index < n
  }

  /** The hit names a layer of t, and that layer's stopping power, which
      the source divides by, is nonzero. */
  predicate HitDivisible(t: Target, h: Hit) {
    HitFits(h, |t|) && (h.InLayer? ==> t[h.index].stopping != 0.0)
  }

  // ---------------------------------------------------------------------
  // Loss axis and layer search

  /** Cumulative energy loss at the back face of each layer; entry i sums
      the losses of layers 0..i-1 and adds layer i's own. */
  function LossAxis(t: Target): (r: seq<real>)
    ensures |r| == |t|
    ensures forall i :: 0 <= i < |t| ==> r[i] == PrefixLoss(t, i + 1)
  {
    seq(|t|, i requires 0 <= i < |t| => PrefixLoss(t, i) + Loss(t[i]))
  }

  /** Each entry is the previous one plus the layer's own loss, so with
      non-negative losses the axis never decreases. */
  lemma LossAxisMonotone(t: Target)
    requires forall i :: 0 <= i < |t| ==> t[i].stopping >= 0.0 && t[i].arealDensity >= 0.0
    ensures |LossAxis(t)| > 0 ==> LossAxis(t)[0] == Loss(t[0])
    ensures forall i :: 0 < i < |t| ==> LossAxis(t)[i] == LossAxis(t)[i - 1] + Loss(t[i])
    ensures forall i, j :: 0 <= i <= j < |t| ==> LossAxis(t)[i] <= LossAxis(t)[j]
  {
    var e := LossAxis(t);
    forall i | 0 <= i < |t|
      ensures Loss(t[i]) >= 0.0
    {
      assert t[i].stopping >= 0.0 && t[i].arealDensity >= 0.0;
    }
    forall i, j | 0 <= i <= j < |t|
      ensures e[i] <= e[j]
    {
      PrefixLossMonotone(t, i + 1, j + 1);
    }
  }

  /** The search of find_layer_index: the first layer whose cumulative
      loss reaches the loss needed to come down to the resonance energy. */
  function FindLayerIndex(eIn: real, eLoss: seq<real>): (h: Hit)
    ensures h.FrontEscape? <==> eIn - ResonanceEnergy < 0.0
    ensures HitFits(h, |eLoss|)
    ensures h.InLayer? ==> eIn - ResonanceEnergy <= eLoss[h.index]
    ensures h.InLayer? ==> forall j :: 0 <= j < h.index ==> eLoss[j] < eIn - ResonanceEnergy
    ensures h.BackEscape? ==> forall j :: 0 <= j < |eLoss| ==> eLoss[j] < eIn - ResonanceEnergy
  {
    var deltaEIn := eIn - ResonanceEnergy;
    if deltaEIn < 0.0 then FrontEscape else FirstReaching(deltaEIn, eLoss, 0)
  }

  function FirstReaching(d: real, eLoss: seq<real>, k: nat): (h: Hit)
    requires k <= |eLoss|
    requires forall j :: 0 <= j < k ==> eLoss[j] < d
    ensures !h.FrontEscape? && HitFits(h, |eLoss|)
    ensures h.InLayer? ==> k <= h.index && d <= eLoss[h.index]
    ensures h.InLayer? ==> forall j :: 0 <= j < h.index ==> eLoss[j] < d
    ensures h.BackEscape? ==> forall j :: 0 <= j < |eLoss| ==> eLoss[j] < d
    decreases |eLoss| - k
  {
    if k == |eLoss| then BackEscape
    else if d <= eLoss[k] then InLayer(k)
    else FirstReaching(d, eLoss, k + 1)
  }

  /** The sentinel code the source returns: -2 exactly when the incident
      energy is below the resonance, the first qualifying index otherwise,
      and -1 when no layer qualifies. */
  lemma FindLayerIndexSentinel(eIn: real, eLoss: seq<real>)
    ensures Sentinel(FindLayerIndex(eIn, eLoss)) == -2 <==> eIn < ResonanceEnergy
    ensures Sentinel(FindLayerIndex(eIn, eLoss)) == -1 <==>
              eIn >= ResonanceEnergy && forall j :: 0 <= j < |eLoss| ==> eLoss[j] < eIn - ResonanceEnergy
    ensures Sentinel(FindLayerIndex(eIn, eLoss)) >= 0 ==>
              var i := Sentinel(FindLayerIndex(eIn, eLoss));
              i < |eLoss| && eIn - ResonanceEnergy <= eLoss[i]
              && forall j :: 0 <= j < i ==> eLoss[j] < eIn - ResonanceEnergy
  {
    var h := FindLayerIndex(eIn, eLoss);
    if h.InLayer? {
      assert !(eLoss[h.index] < eIn - ResonanceEnergy);
    }
  }

  /** The first-match search lands on a layer the beam loses energy in:
      behind layer 0 its cumulative loss is strictly above the previous
      one, so its stopping power is not zero, even in a segmented target
      whose unreached layers carry stopping power 0. */
  lemma HitDivides(t: Target, e: real)
    requires FrontDivisible(t)
    ensures HitDivisible(t, FindLayerIndex(e, LossAxis(t)))
  {
    var a := LossAxis(t);
    var h := FindLayerIndex(e, a);
    if h.InLayer? && h.index > 0 {
      var i := h.index;
      assert a[i - 1] < a[i];
      assert a[i] == a[i - 1] + Loss(t[i]);
    }
  }

  // ---------------------------------------------------------------------
  // Energy to depth

  /** Loss still to be spent inside layer `index` once the layers before
      it are crossed. */
  function InLayerLoss(eIn: real, eLoss: seq<real>, index: nat): real
    requires index < |eLoss|
  {
    if index == 0 then eIn - ResonanceEnergy else eIn - ResonanceEnergy - eLoss[index - 1]
  }

  /** Depth inside layer `index` at which the resonance is reached: the
      linear stopping law inverted, so that the depth times the layer's
      stopping power gives back the loss left inside the layer. */
  function FindInLayerThickness(eIn: real, eLoss: seq<real>, index: nat, t: Target): (r: real)
    requires index < |t| == |eLoss| && t[index].stopping != 0.0
    ensures r * t[index].stopping == InLayerLoss(eIn, eLoss, index)
  {
    var deltaEIn := eIn - ResonanceEnergy;
    var inlayerLoss := if index == 0 then deltaEIn else deltaEIn - eLoss[index - 1];
    inlayerLoss / t[index].stopping
  }

  /** x / s stays within [0, d] when x does within [0, s * d]. */
  lemma DivideWithin(x: real, s: real, d: real)
    requires s > 0.0 && 0.0 <= x <= s * d
    ensures 0.0 <= x / s <= d
  {
    assert x / s * s == x;
  }

  /** The loss that remains once the layers before i are crossed lies within
      layer i's own loss, so the in-layer depth lies within the layer. */
  lemma InLayerThicknessBounds(eIn: real, t: Target, i: nat)
    requires Physical(t)
    requires FindLayerIndex(eIn, LossAxis(t)) == InLayer(i)
    ensures 0.0 <= FindInLayerThickness(eIn, LossAxis(t), i, t) <= t[i].arealDensity
  {
    var e := LossAxis(t);
    var d := eIn - ResonanceEnergy;
    var x := if i == 0 then d else d - e[i - 1];
    assert x <= Loss(t[i]) by {
      if i > 0 {
        assert e[i] == e[i - 1] + Loss(t[i]);
      }
    }
    DivideWithin(x, t[i].stopping, t[i].arealDensity);
  }

  /** Depth from the front face at which the resonance is reached. Before
      the target the incident offset is turned into a (negative) depth with
      layer 0's stopping power; behind it the depth is the whole target. */
  function FindTotalThickness(eIn: real, eLoss: seq<real>, h: Hit, t: Target): (r: real)
    requires FrontDivisible(t) && |eLoss| == |t| && HitDivisible(t, h)
    ensures h.FrontEscape? ==> r * t[0].stopping == eIn - ResonanceEnergy
    ensures h.BackEscape? ==> r == TotalDensity(t)
    ensures h.InLayer? ==> (r - PrefixDensity(t, h.index)) * t[h.index].stopping == InLayerLoss(eIn, eLoss, h.index)
  {
    match h
    case FrontEscape => (eIn - ResonanceEnergy) / t[0].stopping
    case BackEscape => TotalDensity(t)
    case InLayer(i) => PrefixDensity(t, i) + FindInLayerThickness(eIn, eLoss, i, t)
  }

  /** The centre depth: negative before the front face, the whole target
      behind the back face, and inside the resonance layer's depth interval
      otherwise. */
  lemma TotalThicknessPlacement(eIn: real, t: Target)
    requires Physical(t)
    ensures var h := FindLayerIndex(eIn, LossAxis(t));
            var c := FindTotalThickness(eIn, LossAxis(t), h, t);
            && (h.FrontEscape? ==> c < 0.0)
            && (h.BackEscape? ==> c == TotalDensity(t))
            && (h.InLayer? ==> PrefixDensity(t, h.index) <= c <= PrefixDensity(t, h.index + 1))
            && (!h.FrontEscape? ==> 0.0 <= c <= TotalDensity(t))
  {
    var e := LossAxis(t);
    var h := FindLayerIndex(eIn, e);
    var c := FindTotalThickness(eIn, e, h, t);
    PrefixDensityMonotone(t, 0, |t|);
    if h.FrontEscape? {
      assert t[0].stopping > 0.0;
      assert (eIn - ResonanceEnergy) / t[0].stopping < 0.0;
    } else if h.InLayer? {
      InLayerThicknessBounds(eIn, t, h.index);
      PrefixDensityMonotone(t, 0, h.index);
      PrefixDensityMonotone(t, h.index + 1, |t|);
    }
  }

  // ---------------------------------------------------------------------
  // Effective atomic number (Bragg's rule)

  /** The elements that are not hydrogen, in order. */
  function NonHydrogen(els: seq<Element>): (r: seq<Element>)
    ensures |r| <= |els|
  {
    if |els| == 0 then []
    else if els[0].z == 1 then NonHydrogen(els[1..])
    else [els[0]] + NonHydrogen(els[1..])
  }

  lemma {:induction false} NonHydrogenAppend(a: seq<Element>, b: seq<Element>)
    ensures NonHydrogen(a + b) == NonHydrogen(a) + NonHydrogen(b)
  {
    if |a| == 0 {
      assert a + b == b;
    } else {
      assert (a + b)[1..] == a[1..] + b;
      NonHydrogenAppend(a[1..], b);
    }
  }

  /** The element list get_Z works on. */
  function Kept(els: seq<Element>, exclH: bool): seq<Element> {
    if exclH then NonHydrogen(els) else els
  }

  /** Bragg's rule as get_Z adds it up: the sum of Z * percent / 100. */
  function WeightedZ(els: seq<Element>): real {
    if |els| == 0 then 0.0 else els[0].z as real * els[0].percentAt / 100.0 + WeightedZ(els[1..])
  }

  /** The sum of Z * percent, without the division. */
  function ZPercentSum(els: seq<Element>): real {
    if |els| == 0 then 0.0 else els[0].z as real * els[0].percentAt + ZPercentSum(els[1..])
  }

  function TotalPercent(els: seq<Element>): real {
    if |els| == 0 then 0.0 else els[0].percentAt + TotalPercent(els[1..])
  }

  lemma {:induction false} WeightedZIsScaledSum(els: seq<Element>)
    ensures WeightedZ(els) == ZPercentSum(els) / 100.0
  {
    if |els| > 0 {
      WeightedZIsScaledSum(els[1..]);
    }
  }

  /** Percent-weighted mean Z of the kept elements, before rounding. */
  function MeanZ(l: Layer, exclH: bool): (r: Result<real>)
    ensures r.Ok? <==> TotalPercent(Kept(l.elements, exclH)) != 0.0
    ensures r.Err? ==> r.error == ZeroDivision
    ensures r.Ok? ==> r.value == ZPercentSum(Kept(l.elements, exclH)) / TotalPercent(Kept(l.elements, exclH))
  {
    var listZ := Kept(l.elements, exclH);
    var zMean := WeightedZ(listZ);
    var total := TotalPercent(listZ);
    WeightedZIsScaledSum(listZ);
    if total == 100.0 then Ok(zMean)
    else if total == 0.0 then Err(ZeroDivision)
    else
      Renormalise(ZPercentSum(listZ), total);
      Ok(zMean / total * 100.0)
  }

  /** Dividing by 100 and renormalising by total * 100 is dividing by total. */
  lemma Renormalise(s: real, total: real)
    requires total != 0.0
    ensures s / 100.0 / total * 100.0 == s / total
  {
  }

  /** Every percentage multiplied by c. */
  function ScalePercents(els: seq<Element>, c: real): (r: seq<Element>)
    ensures |r| == |els|
  {
    if |els| == 0 then [] else [Element(els[0].z, c * els[0].percentAt)] + ScalePercents(els[1..], c)
  }

  lemma {:induction false} ScaleKept(els: seq<Element>, c: real, exclH: bool)
    ensures Kept(ScalePercents(els, c), exclH) == ScalePercents(Kept(els, exclH), c)
  {
    if exclH && |els| > 0 {
      ScaleKept(els[1..], c, exclH);
      var x := els[0];
      var scaled := ScalePercents(els, c);
      var rest := NonHydrogen(els[1..]);
      ScaleUnfold(els, c);
      assert scaled[0] == Element(x.z, c * x.percentAt);
      assert scaled[1..] == ScalePercents(els[1..], c);
      if x.z != 1 {
        ScaleCons(x, rest, c);
        calc {
          NonHydrogen(scaled);
          [scaled[0]] + NonHydrogen(scaled[1..]);
          [Element(x.z, c * x.percentAt)] + ScalePercents(rest, c);
          ScalePercents([x] + rest, c);
        }
      } else {
        assert NonHydrogen(scaled) == NonHydrogen(scaled[1..]);
      }
    }
  }

  lemma ScaleUnfold(els: seq<Element>, c: real)
    requires |els| > 0
    ensures ScalePercents(els, c) == [Element(els[0].z, c * els[0].percentAt)] + ScalePercents(els[1..], c)
  {
  }

  lemma ScaleCons(x: Element, rest: seq<Element>, c: real)
    ensures ScalePercents([x] + rest, c) == [Element(x.z, c * x.percentAt)] + ScalePercents(rest, c)
  {
    var s := [x] + rest;
    ScaleUnfold(s, c);
    assert s[0] == x && s[1..] == rest;
    assert Element(s[0].z, c * s[0].percentAt) == Element(x.z, c * x.percentAt);
    assert ScalePercents(s[1..], c) == ScalePercents(rest, c);
  }

  lemma {:induction false} ScaleSums(els: seq<Element>, c: real)
    ensures ZPercentSum(ScalePercents(els, c)) == c * ZPercentSum(els)
    ensures TotalPercent(ScalePercents(els, c)) == c * TotalPercent(els)
  {
    if |els| > 0 {
      assert ScalePercents(els, c)[1..] == ScalePercents(els[1..], c);
      ScaleSums(els[1..], c);
    }
  }

  /** The mean Z is unchanged when every percentage of the layer is scaled
      by the same positive factor (percentages need not sum to 100). */
  lemma MeanZScaleInvariant(l: Layer, c: real, exclH: bool)
    requires c > 0.0
    ensures MeanZ(l.(elements := ScalePercents(l.elements, c)), exclH) == MeanZ(l, exclH)
  {
    var ks := Kept(l.elements, exclH);
    var l' := l.(elements := ScalePercents(l.elements, c));
    ScaleKept(l.elements, c, exclH);
    ScaleSums(ks, c);
    assert Kept(l'.elements, exclH) == ScalePercents(ks, c);
    SameMean(l, l', c, exclH);
  }

  /** Two layers whose kept sums differ by the same nonzero factor have the
      same mean Z. */
  lemma SameMean(l: Layer, l': Layer, c: real, exclH: bool)
    requires c != 0.0
    requires ZPercentSum(Kept(l'.elements, exclH)) == c * ZPercentSum(Kept(l.elements, exclH))
    requires TotalPercent(Kept(l'.elements, exclH)) == c * TotalPercent(Kept(l.elements, exclH))
    ensures MeanZ(l', exclH) == MeanZ(l, exclH)
  {
    var a := ZPercentSum(Kept(l.elements, exclH));
    var b := TotalPercent(Kept(l.elements, exclH));
    if b != 0.0 {
      CancelFactor(a, b, c);
      assert MeanZ(l', exclH).value == (c * a) / (c * b);
    } else {
      assert c * b == 0.0;
    }
  }

  lemma CancelFactor(a: real, b: real, c: real)
    requires b != 0.0 && c != 0.0
    ensures c * b != 0.0
    ensures (c * a) / (c * b) == a / b
  {
    var q := a / b;
    assert q * b == a;
    assert q * (c * b) == c * a;
  }

  /** round(x, 2) on exact decimals: to the nearest hundredth, ties to the
      even hundredth. */
  function Round2(x: real): (r: real)
    ensures -0.005 <= r - x <= 0.005
    ensures (r * 100.0).Floor as real == r * 100.0
  {
    var y := x * 100.0;
    var f := y.Floor;
    var frac := y - f as real;
    var n := if frac < 0.5 then f else if frac > 0.5 then f + 1 else if f % 2 == 0 then f else f + 1;
    assert (n as real / 100.0) * 100.0 == n as real;
    n as real / 100.0
  }

  /** get_Z: the mean Z, rounded to two decimals. */
  function GetZ(l: Layer, exclH: bool): (r: Result<real>)
    ensures r.Ok? <==> TotalPercent(Kept(l.elements, exclH)) != 0.0
    ensures r.Err? ==> r.error == ZeroDivision
    ensures r.Ok? ==> -0.005 <= r.value - MeanZ(l, exclH).value <= 0.005
  {
    var z :- MeanZ(l, exclH);
    Ok(Round2(z))
  }

  /** The kept elements of the layer have a nonzero total percentage, so
      get_Z has a mean Z for it. */
  predicate Composed(l: Layer, exclH: bool) {
    TotalPercent(Kept(l.elements, exclH)) != 0.0
  }

  // ---------------------------------------------------------------------
  // Doppler width

  /** The Doppler calibration table: silicon, titanium and lead measured,
      a linear fit for every other Z. */
  function DopplerSD(z: real): (r: real)
    ensures 0.0 <= z <= 118.0 ==> 1.6 < r <= 4.2421
    ensures z != 14.0 && z != 22.0 && z != 82.0 ==> r == -0.0218 * z + 4.2421
  {
    if z == 14.0 then 4.00
    else if z == 22.0 then 3.69
    else if z == 82.0 then 2.55
    else -0.0218 * z + 4.2421
  }

  /** Doppler width of a layer, from its Z with hydrogen left out. It
      exists exactly when the layer has non-hydrogen elements at a nonzero
      total percentage. */
  function DopplerWidth(l: Layer): (r: Result<real>)
    ensures r.Ok? <==> Composed(l, true)
    ensures r.Err? ==> r.error == ZeroDivision
  {
    var z :- GetZ(l, true);
    Ok(DopplerSD(z))
  }

  /** The hydrogen content of a layer never changes its Doppler width:
      adding a hydrogen entry of any percentage leaves it as it was. */
  lemma DopplerIgnoresHydrogen(l: Layer, p: real)
    ensures DopplerWidth(l.(elements := l.elements + [Element(1, p)])) == DopplerWidth(l)
  {
    NonHydrogenAppend(l.elements, [Element(1, p)]);
    assert NonHydrogen([Element(1, p)]) == [];
    assert NonHydrogen(l.elements + [Element(1, p)]) == NonHydrogen(l.elements);
  }

  /** The layer whose composition sets the Doppler width: layer 0 before the
      front face, the last layer behind the back face. */
  function DopplerLayer(h: Hit, n: nat): (k: nat)
    requires n > 0 && HitFits(h, n)
    ensures k < n
  {
    match h
    case FrontEscape => 0
    case BackEscape => n - 1
    case InLayer(i) => i
  }

  // ---------------------------------------------------------------------
  // Straggling

  /** Number of layers the beam crosses on its way to the resonance: none
      before the target, every layer behind it, and the layers up to and
      including the resonance layer otherwise. */
  function StraggCount(h: Hit, n: nat): nat {
    match h
    case FrontEscape => 0
    case BackEscape => n
    case InLayer(i) => i + 1
  }

  /** Thickness crossed in each layer up to the resonance: every layer in
      full when the beam leaves by the back, otherwise the layers before the
      resonance layer in full and the in-layer depth for that layer. */
  function StraggThicknesses(eIn: real, eLoss: seq<real>, h: Hit, t: Target): (r: seq<real>)
    requires |eLoss| == |t| && HitDivisible(t, h)
    ensures |r| == StraggCount(h, |t|) <= |t|
    ensures forall j :: 0 <= j < |r| && !(h.InLayer? && j == h.index) ==> r[j] == t[j].arealDensity
  {
    match h
    case FrontEscape => []
    case BackEscape => seq(|t|, j requires 0 <= j < |t| => t[j].arealDensity)
    case InLayer(i) =>
      seq(i + 1, j requires 0 <= j <= i =>
        if j != i then t[j].arealDensity else FindInLayerThickness(eIn, eLoss, i, t))
  }

  lemma {:induction false} SumOfDensities(t: Target, n: nat)
    requires n <= |t|
    ensures Sum(seq(n, j requires 0 <= j < n => t[j].arealDensity)) == PrefixDensity(t, n)
  {
    if n > 0 {
      var s := seq(n, j requires 0 <= j < n => t[j].arealDensity);
      var s' := seq(n - 1, j requires 0 <= j < n - 1 => t[j].arealDensity);
      assert s == s' + [t[n - 1].arealDensity];
      SumAppend(s', [t[n - 1].arealDensity]);
      SumOfDensities(t, n - 1);
    }
  }

  /** The layer thicknesses fed to the straggling term add up to the depth
      of the resonance: the straggling path is exactly the path to the
      centre depth. */
  lemma StraggPathIsCentreDepth(eIn: real, t: Target)
    requires FrontDivisible(t)
    ensures (HitDivides(t, eIn);
             var h := FindLayerIndex(eIn, LossAxis(t));
             !h.FrontEscape? ==>
               Sum(StraggThicknesses(eIn, LossAxis(t), h, t)) == FindTotalThickness(eIn, LossAxis(t), h, t))
  {
    var e := LossAxis(t);
    var h := FindLayerIndex(eIn, e);
    HitDivides(t, eIn);
    match h {
      case FrontEscape =>
      case BackEscape =>
        SumOfDensities(t, |t|);
      case InLayer(i) =>
        var s := StraggThicknesses(eIn, e, h, t);
        var full := seq(i, j requires 0 <= j < i => t[j].arealDensity);
        assert s == full + [FindInLayerThickness(eIn, e, i, t)];
        SumAppend(full, [FindInLayerThickness(eIn, e, i, t)]);
        SumOfDensities(t, i);
    }
  }

  /** The straggling law of the source: a standard deviation from the
      layer's effective Z and the thickness crossed in it. */
  type StraggLaw = (real, real) -> real

  /** Squared straggling width of layer j for the thickness crossed in it;
      0 stands in for a layer without a mean Z. */
  function StraggTerm(t: Target, thick: seq<real>, law: StraggLaw, j: nat): real
    requires j < |thick| <= |t|
  {
    match GetZ(t[j], false)
    case Ok(z) => law(z, thick[j]) * law(z, thick[j])
    case Err(_) => 0.0
  }

  /** The squared straggling widths of the crossed layers, in layer order. */
  function StraggTerms(t: Target, thick: seq<real>, law: StraggLaw): (r: seq<real>)
    requires |thick| <= |t|
    ensures |r| == |thick|
  {
    seq(|thick|, j requires 0 <= j < |thick| => StraggTerm(t, thick, law, j))
  }

  /** The accumulation loop of stragg over layers j..|thick|-1, starting
      from acc: it fails exactly when one of those layers has no mean Z,
      and otherwise adds their squared widths to acc. */
  function StraggVarianceFrom(t: Target, thick: seq<real>, law: StraggLaw, j: nat, acc: real): (r: Result<real>)
    requires |thick| <= |t| && j <= |thick|
    requires acc >= 0.0
    ensures r.Ok? <==> forall m :: j <= m < |thick| ==> Composed(t[m], false)
    ensures r.Err? ==> r.error == ZeroDivision
    ensures r.Ok? ==> r.value == acc + Sum(StraggTerms(t, thick, law)[j..])
    ensures r.Ok? ==> r.value >= acc
    decreases |thick| - j
  {
    if j == |thick| then Ok(acc)
    else
      var z :- GetZ(t[j], false);
      var deltaS := law(z, thick[j]);
      var terms := StraggTerms(t, thick, law);
      assert terms[j..][1..] == terms[j + 1..];
      StraggVarianceFrom(t, thick, law, j + 1, acc + deltaS * deltaS)
  }

  /** Squared straggling width of stragg: the squared widths of the layers
      crossed up to the resonance, added up. It fails exactly when one of
      those layers has no mean Z. */
  function StraggVariance(eIn: real, eLoss: seq<real>, h: Hit, t: Target, law: StraggLaw): (r: Result<real>)
    requires |eLoss| == |t| && HitDivisible(t, h)
    ensures r.Ok? <==> forall m :: 0 <= m < StraggCount(h, |t|) ==> Composed(t[m], false)
    ensures r.Ok? ==> r.value == Sum(StraggTerms(t, StraggThicknesses(eIn, eLoss, h, t), law))
    ensures r.Ok? ==> r.value >= 0.0
  {
    var thick := StraggThicknesses(eIn, eLoss, h, t);
    assert StraggTerms(t, thick, law)[0..] == StraggTerms(t, thick, law);
    StraggVarianceFrom(t, thick, law, 0, 0.0)
  }

  // ---------------------------------------------------------------------
  // Combined width and centre energy

  /** Squared standard deviation of the combined Gaussian: beam, Doppler and
      straggling widths added in quadrature. Doppler counts 0 when switched
      off, straggling counts 0 when the resonance lies before the target.
      It fails exactly when a layer whose mean Z is needed has none: the
      Doppler layer with Doppler on, or a layer crossed up to the
      resonance. */
  function WidthVariance(eIn: real, t: Target, deltaB: real, doppler: bool, law: StraggLaw): (r: Result<real>)
    requires FrontDivisible(t)
    ensures var h := FindLayerIndex(eIn, LossAxis(t));
            r.Err? <==> (doppler && !Composed(t[DopplerLayer(h, |t|)], true))
                        || (!h.FrontEscape? && exists m :: 0 <= m < StraggCount(h, |t|) && !Composed(t[m], false))
  {
    var eLoss := LossAxis(t);
    var h := FindLayerIndex(eIn, eLoss);
    HitDivides(t, eIn);
    var deltaD :- if doppler then DopplerWidth(t[DopplerLayer(h, |t|)]) else Ok(0.0);
    var varS :- if h.FrontEscape? then Ok(0.0) else StraggVariance(eIn, eLoss, h, t, law);
    Ok(deltaB * deltaB + deltaD * deltaD + varS)
  }

  /** Switching Doppler broadening off never widens the combined Gaussian:
      whenever the width with Doppler exists, the width without it exists,
      is the beam and straggling terms alone, and is no larger. */
  lemma DopplerOffNeverWider(eIn: real, t: Target, deltaB: real, law: StraggLaw)
    requires FrontDivisible(t)
    ensures var on := WidthVariance(eIn, t, deltaB, true, law);
            var off := WidthVariance(eIn, t, deltaB, false, law);
            on.Ok? ==> off.Ok? && off.value <= on.value
    ensures var off := WidthVariance(eIn, t, deltaB, false, law);
            off.Ok? ==> off.value >= deltaB * deltaB
  {
    var eLoss := LossAxis(t);
    var h := FindLayerIndex(eIn, eLoss);
    var on := WidthVariance(eIn, t, deltaB, true, law);
    if on.Ok? {
      var deltaD := DopplerWidth(t[DopplerLayer(h, |t|)]).value;
      assert deltaD * deltaD >= 0.0;
    }
  }

  /** Energy on which the broadening grid is centred: the incident energy
      below the resonance, exactly the resonance when it is reached inside
      the target, and the energy left after the whole target, which is
      above the resonance, when the beam leaves by the back. */
  function CenterEnergy(eIn: real, eLoss: seq<real>): (c: real)
    requires |eLoss| > 0
    ensures var h := FindLayerIndex(eIn, eLoss);
            && (h.FrontEscape? ==> c == eIn && c < ResonanceEnergy)
            && (h.InLayer? ==> c == ResonanceEnergy)
            && (h.BackEscape? ==> c > ResonanceEnergy)
  {
    if eIn < ResonanceEnergy then eIn
    else if FindLayerIndex(eIn, eLoss).BackEscape? then
      MaxBelow(eLoss, eIn - ResonanceEnergy);
      eIn - SeqMax(eLoss)
    else ResonanceEnergy
  }

  /** After a back escape the grid is centred on the energy the beam keeps
      once it has crossed every layer. */
  lemma CenterAfterBackEscape(eIn: real, t: Target)
    requires |t| > 0
    requires forall i :: 0 <= i < |t| ==> t[i].stopping >= 0.0 && t[i].arealDensity >= 0.0
    requires FindLayerIndex(eIn, LossAxis(t)).BackEscape?
    ensures CenterEnergy(eIn, LossAxis(t)) == eIn - PrefixLoss(t, |t|)
  {
    var e := LossAxis(t);
    LossAxisMonotone(t);
    assert SeqMax(e) == e[|t| - 1];
  }

  /** A list whose entries all lie below a bound has its maximum below it. */
  lemma MaxBelow(s: seq<real>, b: real)
    requires |s| > 0 && forall j :: 0 <= j < |s| ==> s[j] < b
    ensures SeqMax(s) < b
  {
    var k :| 0 <= k < |s| && s[k] == SeqMax(s);
  }
}
