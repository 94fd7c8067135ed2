/** The yield integrator: the target's hydrogen profile as a step function
    of depth, the broadened depth profile as a step function over sample
    cells, their product summed on a unit grid, and the chi-squared fit
    metric. */
module Yield {
  import opened Layers

  /** Strictly ascending abscissae, as every step table here is built. */
  predicate Ascending(x: seq<real>) {
    forall i, j :: 0 <= i < j < |x| ==> x[i] < x[j]
  }

  /** The first index at or after k whose abscissa reaches p, or |x|. */
  function NextIndex(x: seq<real>, p: real, k: nat): (r: nat)
    requires k <= |x|
    ensures k <= r <= |x|
    ensures forall j :: k <= j < r ==> x[j] < p
    ensures r < |x| ==> x[r] >= p
    decreases |x| - k
  {
    if k == |x| || x[k] >= p then k else NextIndex(x, p, k + 1)
  }

  /** A "next" step interpolator with zero fill: inside [x[0], x[last]] the
      value of the first abscissa at or beyond p, outside it zero. */
  function NextStep(x: seq<real>, y: seq<real>, p: real): (v: real)
    requires |y| == |x|
    ensures |x| == 0 || p < x[0] || p > x[|x| - 1] ==> v == 0.0
    ensures v == 0.0 || exists k :: 0 <= k < |y| && v == y[k]
  {
    if |x| == 0 || p < x[0] || p > x[|x| - 1] then 0.0
    else
      var k := NextIndex(x, p, 0);
      y[k]
  }

  /** On ascending abscissae the interpolator is y[k] exactly on the cell
      (x[k-1], x[k]], and y[0] at the single point x[0]. */
  lemma NextStepOnCell(x: seq<real>, y: seq<real>, k: nat, p: real)
    requires |y| == |x| && Ascending(x) && k < |x|
    requires if k == 0 then p == x[0] else x[k - 1] < p <= x[k]
    ensures NextStep(x, y, p) == y[k]
  {
    assert x[0] <= p <= x[|x| - 1] by {
      if k > 0 { assert x[0] <= x[k - 1]; }
      assert x[k] <= x[|x| - 1];
    }
    var r := NextIndex(x, p, 0);
  }

  /** With the same abscissae, raising the table values pointwise never
      lowers the interpolated value. */
  lemma NextStepMonotone(x: seq<real>, y: seq<real>, y': seq<real>, p: real)
    requires |y| == |x| && |y'| == |x|
    requires forall i :: 0 <= i < |x| ==> y[i] <= y'[i]
    ensures NextStep(x, y, p) <= NextStep(x, y', p)
  {
  }

  lemma NextStepNonNegative(x: seq<real>, y: seq<real>, p: real)
    requires |y| == |x|
    requires forall i :: 0 <= i < |y| ==> y[i] >= 0.0
    ensures NextStep(x, y, p) >= 0.0
  {
  }

  // ---------------------------------------------------------------- hydrogen

  /** Summed atomic percent of the hydrogen (Z = 1) entries. */
  function HydrogenSum(els: seq<Element>): real {
    if |els| == 0 then 0.0
    else (if els[0].z == 1 then els[0].percentAt else 0.0) + HydrogenSum(els[1..])
  }

  function HydrogenPercent(l: Layer): real {
    HydrogenSum(l.elements)
  }

  lemma {:induction false} HydrogenSumNonNegative(els: seq<Element>)
    requires forall j :: 0 <= j < |els| ==> els[j].percentAt >= 0.0
    ensures HydrogenSum(els) >= 0.0
  {
    if |els| > 0 {
      HydrogenSumNonNegative(els[1..]);
    }
  }

  lemma {:induction false} HydrogenSumZero(els: seq<Element>)
    requires forall j :: 0 <= j < |els| ==> els[j].z != 1
    ensures HydrogenSum(els) == 0.0
  {
    if |els| > 0 {
      HydrogenSumZero(els[1..]);
    }
  }

  /** The running boundaries after layers i.., starting from `value`. */
  function Accumulate(t: Target, i: nat, value: real): (r: seq<real>)
    requires i <= |t|
    ensures |r| == |t| - i
    ensures forall j :: 0 <= j < |r| ==>
              r[j] == value + PrefixDensity(t, i + j + 1) - PrefixDensity(t, i)
    decreases |t| - i
  {
    if i == |t| then []
    else
      var next := value + t[i].arealDensity;
      [next] + Accumulate(t, i + 1, next)
  }

  /** The hydrogen step table: layer boundaries in cumulative areal density
      from the surface, and each layer's hydrogen percent behind a leading 0. */
  function HydrogenTable(t: Target): (r: (seq<real>, seq<real>))
    ensures |r.0| == |t| + 1 && |r.1| == |t| + 1
    ensures forall i {:trigger r.0[i]} :: 0 <= i <= |t| ==> r.0[i] == PrefixDensity(t, i)
    ensures r.1[0] == 0.0 && forall i {:trigger r.1[i]} :: 1 <= i <= |t| ==> r.1[i] == HydrogenPercent(t[i - 1])
  {
    var acc := Accumulate(t, 0, 0.0);
    var bounds := [0.0] + acc;
    var values := [0.0] + Percents(t);
    assert forall i :: 1 <= i <= |t| ==> bounds[i] == acc[i - 1];
    assert forall i :: 1 <= i <= |t| ==> values[i] == Percents(t)[i - 1];
    (bounds, values)
  }

  /** Each layer's hydrogen percent, in order. */
  function Percents(t: Target): (r: seq<real>)
    ensures |r| == |t| && forall i :: 0 <= i < |t| ==> r[i] == HydrogenPercent(t[i])
  {
    if |t| == 0 then [] else [HydrogenPercent(t[0])] + Percents(t[1..])
  }

  predicate PositiveDensities(t: Target) {
    forall i :: 0 <= i < |t| ==> t[i].arealDensity > 0.0
  }

  lemma {:induction false} PrefixDensityStrict(t: Target, a: nat, b: nat)
    requires a < b <= |t| && PositiveDensities(t)
    ensures PrefixDensity(t, a) < PrefixDensity(t, b)
    decreases b - a
  {
    if a + 1 < b {
      PrefixDensityStrict(t, a, b - 1);
    }
  }

  lemma HydrogenBoundsAscending(t: Target)
    requires PositiveDensities(t)
    ensures Ascending(HydrogenTable(t).0)
  {
    var x := HydrogenTable(t).0;
    forall i, j | 0 <= i < j < |x|
      ensures x[i] < x[j]
    {
      PrefixDensityStrict(t, i, j);
      assert x[i] == PrefixDensity(t, i) && x[j] == PrefixDensity(t, j);
    }
  }

  /** Hydrogen percent at depth p (TFU). */
  function HydrogenAt(t: Target, p: real): real {
    var table := HydrogenTable(t);
    NextStep(table.0, table.1, p)
  }

  /** The hydrogen profile is layer i's percent on (cum_i, cum_{i+1}], and
      zero at or above the surface and beyond the back of the target. */
  lemma HydrogenProfile(t: Target, p: real)
    requires PositiveDensities(t)
    ensures p <= 0.0 ==> HydrogenAt(t, p) == 0.0
    ensures p > TotalDensity(t) ==> HydrogenAt(t, p) == 0.0
    ensures forall i :: 0 <= i < |t| && PrefixDensity(t, i) < p <= PrefixDensity(t, i + 1) ==>
              HydrogenAt(t, p) == HydrogenPercent(t[i])
  {
    var table := HydrogenTable(t);
    HydrogenBoundsAscending(t);
    assert table.0[0] == 0.0 && table.0[|t|] == TotalDensity(t);
    if p == 0.0 {
      NextStepOnCell(table.0, table.1, 0, p);
    }
    forall i | 0 <= i < |t| && PrefixDensity(t, i) < p <= PrefixDensity(t, i + 1)
      ensures HydrogenAt(t, p) == HydrogenPercent(t[i])
    {
      HydrogenCell(t, table, i, p);
    }
  }

  /** One layer's cell of the hydrogen profile. */
  lemma HydrogenCell(t: Target, table: (seq<real>, seq<real>), i: nat, p: real)
    requires table == HydrogenTable(t) && Ascending(table.0)
    requires i < |t| && PrefixDensity(t, i) < p <= PrefixDensity(t, i + 1)
    ensures NextStep(table.0, table.1, p) == HydrogenPercent(t[i])
  {
    var x, y := table.0, table.1;
    assert x[i] < p <= x[i + 1] by {
      assert x[i] == PrefixDensity(t, i);
      assert x[i + 1] == PrefixDensity(t, i + 1);
    }
    assert y[i + 1] == HydrogenPercent(t[i]);
    NextStepOnCell(x, y, i + 1, p);
  }

  lemma {:induction false} PrefixDensityAgree(t: Target, t': Target, n: nat)
    requires n <= |t| == |t'|
    requires forall i :: 0 <= i < |t| ==> t[i].arealDensity == t'[i].arealDensity
    ensures PrefixDensity(t, n) == PrefixDensity(t', n)
  {
    if n > 0 {
      PrefixDensityAgree(t, t', n - 1);
    }
  }

  /** Targets with the same layer densities and pointwise more hydrogen have
      a pointwise higher hydrogen profile. */
  lemma HydrogenAtMonotone(t: Target, t': Target, p: real)
    requires |t| == |t'|
    requires forall i :: 0 <= i < |t| ==> t[i].arealDensity == t'[i].arealDensity
    requires forall i :: 0 <= i < |t| ==> HydrogenPercent(t[i]) <= HydrogenPercent(t'[i])
    ensures HydrogenAt(t, p) <= HydrogenAt(t', p)
  {
    var a := HydrogenTable(t);
    var b := HydrogenTable(t');
    forall i | 0 <= i < |a.0|
      ensures a.0[i] == b.0[i]
    {
      if i > 0 {
        PrefixDensityAgree(t, t', i);
      }
    }
    assert a.0 == b.0;
    NextStepMonotone(a.0, a.1, b.1, p);
  }

  // ------------------------------------------------------- broadening steps

  /** Cell edges of the depth samples: each interior edge halfway between
      neighbours, the first extrapolated by half the first spacing. The
      source indexes x[0] and x[1], so fewer than two samples fail. */
  function CellEdges(x: seq<real>): (r: Result<seq<real>>)
    ensures r.Err? <==> |x| < 2
    ensures r.Err? ==> r.error == IndexOutOfRange
    ensures r.Ok? ==> |r.value| == |x| && r.value[0] == x[0] - (x[1] - x[0]) / 2.0
    ensures r.Ok? ==> forall k {:trigger r.value[k]} :: 1 <= k < |x| ==> r.value[k] == (x[k - 1] + x[k]) / 2.0
  {
    if |x| < 2 then Err(IndexOutOfRange)
    else
      var e := [x[0] - (x[1] - x[0]) / 2.0]
               + seq(|x| - 1, i requires 0 <= i < |x| - 1 => (x[i + 1] + x[i]) / 2.0);
      assert forall k {:trigger e[k]} :: 1 <= k < |x| ==> e[k] == (x[k] + x[k - 1]) / 2.0;
      Ok(e)
  }

  /** The right edge of the last cell, mirrored from the last spacing. */
  function LastEdge(x: seq<real>): real
    requires |x| >= 2
  {
    x[|x| - 1] + (x[|x| - 1] - x[|x| - 2]) / 2.0
  }

  /** The left edges followed by the right edge of the last cell. */
  function ClosedEdges(x: seq<real>): (e: seq<real>)
    requires |x| >= 2
    ensures |e| == |x| + 1 && e[|x|] == LastEdge(x)
    ensures forall k :: 0 <= k < |x| ==> e[k] == CellEdges(x).value[k]
  {
    CellEdges(x).value + [LastEdge(x)]
  }

  /** Each entry below the next. */
  ghost predicate Steps(x: seq<real>) {
    forall i, j :: 0 <= i < j < |x| && j == i + 1 ==> x[i] < x[j]
  }

  lemma {:induction false} StepsChain(x: seq<real>, i: nat, j: nat)
    requires Steps(x) && i < j < |x|
    ensures x[i] < x[j]
    decreases j - i
  {
    if i + 1 < j {
      StepsChain(x, i, j - 1);
    }
  }

  lemma StepsAscending(x: seq<real>)
    requires Steps(x)
    ensures Ascending(x)
  {
    forall i, j | 0 <= i < j < |x|
      ensures x[i] < x[j]
    {
      StepsChain(x, i, j);
    }
  }

  lemma ClosedEdgesSteps(x: seq<real>)
    requires |x| >= 2 && Steps(x)
    ensures Steps(ClosedEdges(x))
  {
    var e := ClosedEdges(x);
    var c := CellEdges(x).value;
    forall k | 0 <= k < |e| - 1
      ensures e[k] < e[k + 1]
    {
      if k == |x| - 1 {
        assert e[k] == (x[k - 1] + x[k]) / 2.0 && x[k - 1] < x[k];
      } else if k == 0 {
        assert e[0] == x[0] - (x[1] - x[0]) / 2.0 && e[1] == (x[0] + x[1]) / 2.0;
      } else {
        assert e[k] == (x[k - 1] + x[k]) / 2.0 && e[k + 1] == (x[k] + x[k + 1]) / 2.0;
        assert x[k - 1] < x[k];
      }
    }
  }

  /** On ascending samples the edges are ascending, sample k lies strictly
      inside (edge k, edge k+1), and the first cell is symmetric about its
      sample. */
  lemma CellEdgesBracket(x: seq<real>)
    requires |x| >= 2 && Ascending(x)
    ensures Ascending(CellEdges(x).value) && Ascending(ClosedEdges(x))
    ensures forall k :: 0 <= k < |x| ==> ClosedEdges(x)[k] < x[k] < ClosedEdges(x)[k + 1]
    ensures x[0] - ClosedEdges(x)[0] == ClosedEdges(x)[1] - x[0]
  {
    var e := ClosedEdges(x);
    var c := CellEdges(x).value;
    assert Steps(x) by {
      forall k | 0 <= k < |x| - 1
        ensures x[k] < x[k + 1]
      {
      }
    }
    ClosedEdgesSteps(x);
    StepsAscending(e);
    assert Steps(c) by {
      forall k | 0 <= k < |c| - 1
        ensures c[k] < c[k + 1]
      {
        assert c[k] == e[k] && c[k + 1] == e[k + 1];
      }
    }
    StepsAscending(c);
    forall k | 0 <= k < |x|
      ensures e[k] < x[k] < e[k + 1]
    {
      if k > 0 {
        assert e[k] == (x[k - 1] + x[k]) / 2.0 && x[k - 1] < x[k];
      } else {
        assert e[0] == x[0] - (x[1] - x[0]) / 2.0 && x[0] < x[1];
      }
      if k < |x| - 1 {
        assert e[k + 1] == (x[k] + x[k + 1]) / 2.0 && x[k] < x[k + 1];
      } else {
        assert x[k - 1] < x[k];
      }
    }
  }

  /** Broadened intensity at depth p. AsWritten hands the left cell edges to
      the "next" interpolator with the samples' intensities, so a depth in
      cell k takes the intensity of sample k+1. Corrected closes the last
      cell with LastEdge and puts a 0 in front of the intensities, so a
      depth in cell k takes the intensity of sample k. */
  function Broad(variant: Variant, x: seq<real>, y: seq<real>, p: real): real
    requires |x| >= 2 && |y| == |x|
  {
    match variant
    case AsWritten => NextStep(CellEdges(x).value, y, p)
    case Corrected => NextStep(ClosedEdges(x), [0.0] + y, p)
  }

  /** The as-written step function reads the neighbour's intensity at every
      sample but the last. */
  lemma BroadShifted(x: seq<real>, y: seq<real>, k: nat)
    requires |x| >= 2 && |y| == |x| && Ascending(x) && k < |x| - 1
    ensures Broad(AsWritten, x, y, x[k]) == y[k + 1]
  {
    var c := CellEdges(x).value;
    var e := ClosedEdges(x);
    CellEdgesBracket(x);
    assert c[k] < x[k] <= c[k + 1] by {
      assert e[k] < x[k] < e[k + 1];
      assert e[k] == c[k] && e[k + 1] == c[k + 1];
    }
    NextStepOnCell(c, y, k + 1, x[k]);
  }

  /** Corrected: sample k's intensity holds on its whole cell. */
  lemma BroadOnCell(x: seq<real>, y: seq<real>, k: nat, p: real)
    requires |x| >= 2 && |y| == |x| && Ascending(x) && k < |x|
    requires ClosedEdges(x)[k] < p <= ClosedEdges(x)[k + 1]
    ensures Broad(Corrected, x, y, p) == y[k]
  {
    var z := [0.0] + y;
    assert z[k + 1] == y[k];
    ClosedEdgesAscending(x);
    NextStepOnCell(ClosedEdges(x), z, k + 1, p);
  }

  lemma ClosedEdgesAscending(x: seq<real>)
    requires |x| >= 2 && Ascending(x)
    ensures Ascending(ClosedEdges(x))
  {
    CellEdgesBracket(x);
  }

  /** Corrected: every sample reads its own intensity. */
  lemma BroadAtSample(x: seq<real>, y: seq<real>, k: nat)
    requires |x| >= 2 && |y| == |x| && Ascending(x) && k < |x|
    ensures Broad(Corrected, x, y, x[k]) == y[k]
  {
    CellEdgesBracket(x);
    BroadOnCell(x, y, k, x[k]);
  }

  /** A three-sample profile with all its intensity at the surface sample
      reads zero at the surface as the source writes it, and the surface
      sample's intensity when corrected. */
  lemma BroadShiftWitness()
    ensures Broad(AsWritten, [0.0, 2.0, 4.0], [1.0, 0.0, 0.0], 0.0) == 0.0
    ensures Broad(Corrected, [0.0, 2.0, 4.0], [1.0, 0.0, 0.0], 0.0) == 1.0
  {
    var x := [0.0, 2.0, 4.0];
    var y := [1.0, 0.0, 0.0];
    assert Ascending(x);
    BroadShifted(x, y, 0);
    BroadAtSample(x, y, 0);
  }

  lemma BroadNonNegative(variant: Variant, x: seq<real>, y: seq<real>, p: real)
    requires |x| >= 2 && |y| == |x|
    requires forall i :: 0 <= i < |y| ==> y[i] >= 0.0
    ensures Broad(variant, x, y, p) >= 0.0
  {
    var edges := CellEdges(x).value;
    if variant.Corrected? {
      var z := [0.0] + y;
      assert forall i :: 0 <= i < |z| ==> z[i] >= 0.0 by {
        assert forall i :: 1 <= i < |z| ==> z[i] == y[i - 1];
      }
      NextStepNonNegative(edges + [LastEdge(x)], z, p);
    } else {
      NextStepNonNegative(edges, y, p);
    }
  }

  // ------------------------------------------------------------ the integral

  /** The smallest integer not below r. */
  function Ceiling(r: real): (c: int)
    ensures c as real >= r && (c as real) - 1.0 < r
  {
    -((-r).Floor)
  }

  /** The unit-step grid a, a+1, ... below b+1, as a range with step 1. */
  function Grid(a: real, b: real): (g: seq<real>)
    ensures forall k :: 0 <= k < |g| ==> g[k] == a + k as real && g[k] < b + 1.0
    ensures a + |g| as real >= b + 1.0
  {
    var n := Ceiling(b + 1.0 - a);
    if n <= 0 then [] else seq(n, k requires 0 <= k < n => a + k as real)
  }

  /** The integration range starts at the surface or at the shallowest
      sample, whichever is shallower, and ends at the deepest sample. */
  function YieldGrid(x: seq<real>): (g: seq<real>)
    requires |x| > 0
    ensures |g| > 0 && g[0] <= 0.0
    ensures forall i :: 0 <= i < |x| ==> g[0] <= x[i] < g[0] + |g| as real
  {
    Grid(Min(0.0, SeqMin(x)), SeqMax(x))
  }

  /** Hydrogen percent times broadened intensity at depth p. */
  function Weight(t: Target, variant: Variant, x: seq<real>, y: seq<real>, p: real): real
    requires |x| >= 2 && |y| == |x|
  {
    Product(HydrogenAt(t, p), Broad(variant, x, y, p))
  }

  function Product(a: real, b: real): real {
    a * b
  }

  function Integrand(t: Target, variant: Variant, x: seq<real>, y: seq<real>, g: seq<real>): (f: seq<real>)
    requires |x| >= 2 && |y| == |x|
    ensures |f| == |g|
    ensures forall k :: 0 <= k < |g| ==> f[k] == Weight(t, variant, x, y, g[k])
  {
    seq(|g|, k requires 0 <= k < |g| => Weight(t, variant, x, y, g[k]))
  }

  /** The yield of one incident energy: the hydrogen profile times the
      broadened depth profile, summed over the unit grid with no step
      factor. */
  function ComputeYield(t: Target, x: seq<real>, y: seq<real>, variant: Variant): (r: Result<real>)
    ensures r.Err? <==> |x| < 2 || |y| != |x|
    ensures r.Err? ==> r.error == (if |x| < 2 then IndexOutOfRange else Mismatch)
  {
    if |x| < 2 then Err(IndexOutOfRange)
    else if |y| != |x| then Err(Mismatch)
    else Ok(Sum(Integrand(t, variant, x, y, YieldGrid(x))))
  }

  lemma {:induction false} SumPointwise(a: seq<real>, b: seq<real>)
    requires |a| == |b|
    requires forall i :: 0 <= i < |a| ==> a[i] <= b[i]
    ensures Sum(a) <= Sum(b)
  {
    if |a| > 0 {
      SumPointwise(a[1..], b[1..]);
    }
  }

  lemma {:induction false} SumZeros(a: seq<real>)
    requires forall i :: 0 <= i < |a| ==> a[i] == 0.0
    ensures Sum(a) == 0.0
  {
    if |a| > 0 {
      SumZeros(a[1..]);
    }
  }

  predicate HydrogenFree(t: Target) {
    forall i :: 0 <= i < |t| ==> HydrogenPercent(t[i]) == 0.0
  }

  lemma HydrogenAtFree(t: Target, p: real)
    requires HydrogenFree(t)
    ensures HydrogenAt(t, p) == 0.0
  {
    var table := HydrogenTable(t);
    forall i | 0 <= i < |table.1|
      ensures table.1[i] == 0.0
    {
      if i > 0 {
        assert table.1[i] == HydrogenPercent(t[i - 1]);
      }
    }
  }

  /** A target whose layers all hold zero percent hydrogen has zero
      yield. */
  lemma YieldHydrogenFree(t: Target, x: seq<real>, y: seq<real>, variant: Variant)
    requires HydrogenFree(t)
    ensures ComputeYield(t, x, y, variant).Ok? ==> ComputeYield(t, x, y, variant).value == 0.0
  {
    if |x| >= 2 && |y| == |x| {
      var g := YieldGrid(x);
      var f := Integrand(t, variant, x, y, g);
      forall k | 0 <= k < |f|
        ensures f[k] == 0.0
      {
        HydrogenAtFree(t, g[k]);
      }
      SumZeros(f);
    }
  }

  /** A target without hydrogen has zero yield. */
  lemma YieldWithoutHydrogen(t: Target, x: seq<real>, y: seq<real>, variant: Variant)
    requires forall i, j :: 0 <= i < |t| && 0 <= j < |t[i].elements| ==> t[i].elements[j].z != 1
    ensures ComputeYield(t, x, y, variant).Ok? ==> ComputeYield(t, x, y, variant).value == 0.0
  {
    forall i | 0 <= i < |t|
      ensures HydrogenPercent(t[i]) == 0.0
    {
      HydrogenSumZero(t[i].elements);
    }
    YieldHydrogenFree(t, x, y, variant);
  }

  /** Hydrogen percentages of a target whose element percents are all
      non-negative. */
  lemma HydrogenAtNonNegative(t: Target, p: real)
    requires forall i, j :: 0 <= i < |t| && 0 <= j < |t[i].elements| ==> t[i].elements[j].percentAt >= 0.0
    ensures HydrogenAt(t, p) >= 0.0
  {
    var table := HydrogenTable(t);
    forall i | 0 <= i < |table.1|
      ensures table.1[i] >= 0.0
    {
      if i > 0 {
        HydrogenSumNonNegative(t[i - 1].elements);
      }
    }
    NextStepNonNegative(table.0, table.1, p);
  }

  lemma ProductNonNegative(a: real, b: real)
    requires a >= 0.0 && b >= 0.0
    ensures Product(a, b) >= 0.0
  {
  }

  lemma ProductMonotone(a: real, a': real, c: real)
    requires a <= a' && c >= 0.0
    ensures Product(a, c) <= Product(a', c)
  {
  }

  lemma WeightNonNegative(t: Target, variant: Variant, x: seq<real>, y: seq<real>, p: real)
    requires |x| >= 2 && |y| == |x|
    requires forall i, j :: 0 <= i < |t| && 0 <= j < |t[i].elements| ==> t[i].elements[j].percentAt >= 0.0
    requires forall i :: 0 <= i < |y| ==> y[i] >= 0.0
    ensures Weight(t, variant, x, y, p) >= 0.0
  {
    HydrogenAtNonNegative(t, p);
    BroadNonNegative(variant, x, y, p);
    ProductNonNegative(HydrogenAt(t, p), Broad(variant, x, y, p));
  }

  lemma WeightMonotone(t: Target, t': Target, variant: Variant, x: seq<real>, y: seq<real>, p: real)
    requires |x| >= 2 && |y| == |x| && |t| == |t'|
    requires forall i :: 0 <= i < |t| ==> t[i].arealDensity == t'[i].arealDensity
    requires forall i :: 0 <= i < |t| ==> HydrogenPercent(t[i]) <= HydrogenPercent(t'[i])
    requires forall i :: 0 <= i < |y| ==> y[i] >= 0.0
    ensures Weight(t, variant, x, y, p) <= Weight(t', variant, x, y, p)
  {
    HydrogenAtMonotone(t, t', p);
    BroadNonNegative(variant, x, y, p);
    ProductMonotone(HydrogenAt(t, p), HydrogenAt(t', p), Broad(variant, x, y, p));
  }

  /** Non-negative percentages and intensities give a non-negative yield. */
  lemma YieldNonNegative(t: Target, x: seq<real>, y: seq<real>, variant: Variant)
    requires forall i, j :: 0 <= i < |t| && 0 <= j < |t[i].elements| ==> t[i].elements[j].percentAt >= 0.0
    requires forall i :: 0 <= i < |y| ==> y[i] >= 0.0
    ensures ComputeYield(t, x, y, variant).Ok? ==> ComputeYield(t, x, y, variant).value >= 0.0
  {
    if |x| >= 2 && |y| == |x| {
      var g := YieldGrid(x);
      var f := Integrand(t, variant, x, y, g);
      forall k | 0 <= k < |f|
        ensures f[k] >= 0.0
      {
        WeightNonNegative(t, variant, x, y, g[k]);
      }
      SumNonNegative(f);
    }
  }

  /** Raising the hydrogen percent of any layers, densities unchanged, never
      lowers the yield of a non-negative profile. */
  lemma YieldMonotone(t: Target, t': Target, x: seq<real>, y: seq<real>, variant: Variant)
    requires |t| == |t'|
    requires forall i :: 0 <= i < |t| ==> t[i].arealDensity == t'[i].arealDensity
    requires forall i :: 0 <= i < |t| ==> HydrogenPercent(t[i]) <= HydrogenPercent(t'[i])
    requires forall i :: 0 <= i < |y| ==> y[i] >= 0.0
    ensures ComputeYield(t, x, y, variant).Ok? <==> ComputeYield(t', x, y, variant).Ok?
    ensures ComputeYield(t, x, y, variant).Ok? ==>
              ComputeYield(t, x, y, variant).value <= ComputeYield(t', x, y, variant).value
  {
    if |x| >= 2 && |y| == |x| {
      var g := YieldGrid(x);
      var f := Integrand(t, variant, x, y, g);
      var f' := Integrand(t', variant, x, y, g);
      forall k | 0 <= k < |g|
        ensures f[k] <= f'[k]
      {
        WeightMonotone(t, t', variant, x, y, g[k]);
      }
      SumPointwise(f, f');
    }
  }

  // ------------------------------------------------------------ fit metric

  function Square(d: real): (r: real)
    ensures r >= 0.0
    ensures r == 0.0 <==> d == 0.0
  {
    SquareSign(d);
    d * d
  }

  /** A square is positive away from 0. */
  lemma SquareSign(d: real)
    ensures d * d >= 0.0 && (d * d == 0.0 <==> d == 0.0)
  {
    if d > 0.0 {
      ProductPositive(d, d);
    } else if d < 0.0 {
      ProductPositive(-d, -d);
    }
  }

  lemma ProductPositive(a: real, b: real)
    requires a > 0.0 && b > 0.0
    ensures Product(a, b) > 0.0
  {
  }

  /** Squared differences of the pairs the two curves share, as zip does. */
  function SquaredGaps(e: seq<real>, s: seq<real>): (r: seq<real>)
    ensures |r| == (if |e| <= |s| then |e| else |s|)
    ensures forall k :: 0 <= k < |r| ==> r[k] == Square(e[k] - s[k])
    ensures forall k :: 0 <= k < |r| ==> r[k] >= 0.0 && (r[k] == 0.0 <==> e[k] == s[k])
  {
    var n := if |e| <= |s| then |e| else |s|;
    seq(n, k requires 0 <= k < n => Square(e[k] - s[k]))
  }

  /** Mean squared gap over the pairs the two curves share, divided by the
      experimental length; an empty experimental curve divides by zero. */
  function ChiSquared(yExp: seq<real>, ySim: seq<real>): (r: Result<real>)
    ensures r.Err? <==> |yExp| == 0
    ensures r.Err? ==> r.error == ZeroDivision
    ensures r.Ok? ==> r.value >= 0.0
  {
    if |yExp| == 0 then Err(ZeroDivision)
    else
      var gaps := SquaredGaps(yExp, ySim);
      SumNonNegative(gaps);
      Ok(Sum(gaps) / |yExp| as real)
  }

  lemma {:induction false} SumZeroOnlyIfZeros(a: seq<real>)
    requires forall i :: 0 <= i < |a| ==> a[i] >= 0.0
    requires Sum(a) == 0.0
    ensures forall i :: 0 <= i < |a| ==> a[i] == 0.0
  {
    if |a| > 0 {
      SumNonNegative(a[1..]);
      SumZeroOnlyIfZeros(a[1..]);
      assert forall i :: 1 <= i < |a| ==> a[i] == a[1..][i - 1];
    }
  }

  /** The metric is zero exactly when the curves agree wherever both have
      a value. */
  lemma ChiSquaredZeroIff(yExp: seq<real>, ySim: seq<real>)
    requires |yExp| > 0
    ensures ChiSquared(yExp, ySim) == Ok(0.0) <==>
              forall k :: 0 <= k < |yExp| && k < |ySim| ==> yExp[k] == ySim[k]
  {
    var gaps := SquaredGaps(yExp, ySim);
    if forall k :: 0 <= k < |yExp| && k < |ySim| ==> yExp[k] == ySim[k] {
      SumZeros(gaps);
    }
    if ChiSquared(yExp, ySim) == Ok(0.0) {
      assert Sum(gaps) == 0.0;
      SumZeroOnlyIfZeros(gaps);
      forall k | 0 <= k < |yExp| && k < |ySim|
        ensures yExp[k] == ySim[k]
      {
        assert gaps[k] == Square(yExp[k] - ySim[k]);
      }
    }
  }

  lemma ChiSquaredSelf(v: seq<real>)
    requires |v| > 0
    ensures ChiSquared(v, v) == Ok(0.0)
  {
    ChiSquaredZeroIff(v, v);
  }

  /** Simulated values beyond the experimental curve's length are ignored. */
  lemma ChiSquaredIgnoresSurplus(yExp: seq<real>, ySim: seq<real>, extra: seq<real>)
    requires |ySim| >= |yExp|
    ensures ChiSquared(yExp, ySim + extra) == ChiSquared(yExp, ySim)
  {
    var a := SquaredGaps(yExp, ySim + extra);
    var b := SquaredGaps(yExp, ySim);
    assert |a| == |b| == |yExp|;
    assert forall k :: 0 <= k < |a| ==> (ySim + extra)[k] == ySim[k];
    assert a == b;
  }
}
