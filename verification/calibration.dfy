/** Calibration against a reference standard: the one-layer standard
    target built from the operator's entries, its simulated yield at the
    calibration energy, and the constant K that maps simulated yields onto
    measured ones. */
module Calibration {
  import opened Layers
  import opened Resonance
  import opened Broadening
  import opened Yield
  import opened Segmentation
  import opened Editor

  /** The standard is one layer of this areal density (TFU). */
  const StandardDensity := 1500.0
  /** The standard's stopping power is asked for at this energy (keV). */
  const StandardStoppingEnergy := 6385.0
  /** The standard's yield is simulated at this beam energy (keV). */
  const CalibrationEnergy := 6500.0

  /** The operator's standard: hydrogen percent, stopping power from the
      oracle, measured yield, and its two elements. */
  datatype StandardInfo = StandardInfo(h: real, stopping: real, measured: real, elements: seq<Element>)

  /** Hydrogen at h percent and the matrix element Z at the rest. */
  function StandardElements(h: real, z: int): seq<Element> {
    [Element(1, h), Element(z, 100.0 - h)]
  }

  /** Read the standard's entries. A failed parse is printed and swallowed
      by the source, after which returning the unassigned locals raises
      UnboundLocalError; the hydrogen percent is not range-checked. */
  function GetStandardInfo(oracle: Oracle, h: Option<real>, z: Option<int>, measured: Option<real>)
    : (r: Result<StandardInfo>)
    requires ValidOracle(oracle)
    ensures r.Err? <==> h.None? || z.None? || measured.None?
    ensures r.Err? ==> r.error == Unbound
    ensures r.Ok? ==> r.value.h == h.value && r.value.measured == measured.value
    ensures r.Ok? ==> (|r.value.elements| == 2 && r.value.elements[0] == Element(1, h.value)
              && r.value.elements[1].z == z.value
              && r.value.elements[0].percentAt + r.value.elements[1].percentAt == 100.0)
    ensures r.Ok? ==> (r.value.stopping > 0.0
              && r.value.stopping == oracle(r.value.elements, StandardStoppingEnergy))
  {
    if h.None? || z.None? || measured.None? then Err(Unbound)
    else
      var els := StandardElements(h.value, z.value);
      Ok(StandardInfo(h.value, oracle(els, StandardStoppingEnergy), measured.value, els))
  }

  /** The standard target: a default layer with its stopping power, elements
      and density replaced. It is one layer 1500 TFU deep holding the
      standard's hydrogen, and physical whenever the stopping power is
      positive. */
  function StandardTarget(info: StandardInfo): (t: Target)
    ensures |t| == 1 && TotalDensity(t) == StandardDensity
    ensures t[0].stopping == info.stopping && t[0].elements == info.elements
    ensures HydrogenAt(t, StandardDensity) == HydrogenSum(info.elements)
    ensures info.stopping > 0.0 ==> Physical(t)
  {
    var l := NewLayer();
    var t := [l.(stopping := info.stopping).(elements := info.elements).(arealDensity := StandardDensity)];
    HydrogenProfile(t, StandardDensity);
    t
  }

  /** The standard target is a physical target, and its hydrogen percent is
      the entered one, or all of it when the matrix element is hydrogen
      too. */
  lemma StandardTargetFacts(oracle: Oracle, h: Option<real>, z: Option<int>, measured: Option<real>)
    requires ValidOracle(oracle)
    requires GetStandardInfo(oracle, h, z, measured).Ok?
    ensures var t := StandardTarget(GetStandardInfo(oracle, h, z, measured).value);
            Physical(t)
            && HydrogenPercent(t[0]) == if z.value == 1 then 100.0 else h.value
  {
    var info := GetStandardInfo(oracle, h, z, measured).value;
    HydrogenSumPair(info.elements);
  }

  /** The standard's layer has a mean Z with hydrogen left out exactly when
      its matrix element is not hydrogen and holds a nonzero share; with
      hydrogen kept its percentages add up to 100. */
  lemma StandardComposition(l: Layer, hv: real, zv: int)
    requires l.elements == StandardElements(hv, zv)
    ensures Composed(l, true) <==> zv != 1 && hv != 100.0
    ensures Composed(l, false)
  {
    var els := l.elements;
    var rest := [Element(zv, 100.0 - hv)];
    assert els[1..] == rest && rest[1..] == [];
    assert TotalPercent(rest) == 100.0 - hv;
    assert TotalPercent(els) == hv + TotalPercent(rest);
    assert NonHydrogen(els) == NonHydrogen(rest);
    if zv == 1 {
      assert NonHydrogen(rest) == [];
    } else {
      assert NonHydrogen(rest) == rest;
    }
  }

  /** Hydrogen percent of a two-element list, entry by entry. */
  lemma HydrogenSumPair(els: seq<Element>)
    requires |els| == 2
    ensures HydrogenSum(els) == (if els[0].z == 1 then els[0].percentAt else 0.0)
                                + (if els[1].z == 1 then els[1].percentAt else 0.0)
  {
    assert els[1..][0] == els[1];
    assert els[1..][1..] == [];
    assert HydrogenSum(els[1..]) == (if els[1].z == 1 then els[1].percentAt else 0.0) + HydrogenSum([]);
  }

  /** The standard's simulated yield at the calibration energy. It exists
      exactly when every standard entry and the beam width parse, the
      profile has at least two samples, and, with Doppler broadening on,
      the standard has a non-hydrogen share to take a Doppler width from.
      The beam width is parsed after the standard's entries and outside
      any handler, so its failure is a ValueError. */
  function StandardYield(oracle: Oracle, h: Option<real>, z: Option<int>, measured: Option<real>,
                         deltaB: Option<real>, doppler: bool, law: StraggLaw, samples: seq<Sample>,
                         variant: Variant): (r: Result<real>)
    requires ValidOracle(oracle)
    ensures r.Ok? <==> h.Some? && z.Some? && measured.Some? && deltaB.Some? && |samples| >= 2
                       && (doppler ==> z.value != 1 && h.value != 100.0)
    ensures h.None? || z.None? || measured.None? ==> r == Err(Unbound)
    ensures h.Some? && z.Some? && measured.Some? && deltaB.None? ==> r == Err(NotANumber)
  {
    var info :- GetStandardInfo(oracle, h, z, measured);
    var beamWidth :- if deltaB.None? then Err(NotANumber) else Ok(deltaB.value);
    var t := StandardTarget(info);
    StandardComposition(t[0], h.value, z.value);
    var b :- Broaden(CalibrationEnergy, t, beamWidth, doppler, law, samples);
    ComputeYield(t, b.depths, b.intensities, variant)
  }

  /** The measured yield over the simulated one; a zero simulated yield
      has no finite quotient. */
  function Quotient(measured: real, simulated: real): (r: Result<real>)
    ensures r.Err? <==> simulated == 0.0
    ensures r.Err? ==> r.error == ZeroDivision
    ensures r.Ok? ==> Product(r.value, simulated) == measured
  {
    if simulated == 0.0 then Err(ZeroDivision)
    else
      DivideBack(measured, simulated);
      Ok(measured / simulated)
  }

  lemma DivideBack(a: real, b: real)
    requires b != 0.0
    ensures (a / b) * b == a
  {
  }

  /** The calibration constant K: the measured standard yield over the
      standard's simulated yield. K scales that yield exactly onto the
      measured one, fails exactly when it is zero, and carries the error of
      an earlier stage. */
  function CalibrationConstant(oracle: Oracle, h: Option<real>, z: Option<int>, measured: Option<real>,
                               deltaB: Option<real>, doppler: bool, law: StraggLaw, samples: seq<Sample>,
                               variant: Variant): (r: Result<real>)
    requires ValidOracle(oracle)
    ensures var y := StandardYield(oracle, h, z, measured, deltaB, doppler, law, samples, variant);
            (y.Err? ==> r == Err(y.error))
            && (y.Ok? ==> ((r.Err? <==> y.value == 0.0)
                           && (r.Err? ==> r.error == ZeroDivision)
                           && (r.Ok? ==> Product(r.value, y.value) == measured.value)))
  {
    var simulated :- StandardYield(oracle, h, z, measured, deltaB, doppler, law, samples, variant);
    Quotient(measured.value, simulated)
  }

  /** A standard with no hydrogen at all simulates a zero yield, so no
      constant can be formed. */
  lemma HydrogenFreeStandardFails(oracle: Oracle, z: int, measured: real,
                                  deltaB: real, doppler: bool, law: StraggLaw, samples: seq<Sample>,
                                  variant: Variant)
    requires ValidOracle(oracle) && z != 1
    ensures var k := CalibrationConstant(oracle, Some(0.0), Some(z), Some(measured),
                                         Some(deltaB), doppler, law, samples, variant);
            k.Err?
  {
    var info := GetStandardInfo(oracle, Some(0.0), Some(z), Some(measured)).value;
    var t := StandardTarget(info);
    var b := Broaden(CalibrationEnergy, t, deltaB, doppler, law, samples);
    if b.Ok? {
      HydrogenFreeTarget(t);
      YieldHydrogenFree(t, b.value.depths, b.value.intensities, variant);
    }
  }

  /** A layer stack whose hydrogen entries are all at zero percent has a
      hydrogen-free profile. */
  lemma HydrogenFreeTarget(t: Target)
    requires |t| == 1 && |t[0].elements| == 2
    requires t[0].elements[0] == Element(1, 0.0) && t[0].elements[1].z != 1
    ensures HydrogenFree(t)
  {
    HydrogenSumPair(t[0].elements);
  }
}
