/** mod2.assign_stopping: every input layer is halved until the stopping
    power at its entry and exit energies agrees within 0.5 %, then expanded
    into `Count` daughter copies, and every daughter gets its own stopping
    power at its own position in the segmented stack. The stopping-power
    program is an oracle on a layer's element list and an energy. */
module Segmentation {
  import opened Layers

  /** Relative entry/exit disagreement at which a layer counts as thin
      enough: 0.5 percent. */
  const Tolerance: real := 0.5 / 100.0

  /** Exit stopping power used when the beam stops inside the layer. */
  const ClampedStopping: real := 0.000001

  /** Stopping power (keV/TFU) of a composition at an energy (keV). Only
      the element list reaches the stopping-power program. */
  type Oracle = (seq<Element>, real) --> real

  /** The oracle answers for every non-negative energy with a positive
      stopping power. */
  ghost predicate ValidOracle(oracle: Oracle) {
    forall els: seq<Element>, e: real :: e >= 0.0 ==> oracle.requires(els, e) && oracle(els, e) > 0.0
  }

  /** One call of the oracle; `entry` marks the call at a layer's entry
      energy. */
  datatype Query = Query(elements: seq<Element>, energy: real, entry: bool)

  /** Every call is at a non-negative energy and every entry call at a
      positive one. */
  predicate CallsWellPlaced(calls: seq<Query>) {
    forall q :: q in calls ==> q.energy >= 0.0 && (q.entry ==> q.energy > 0.0)
  }

  lemma CallsWellPlacedAppend(a: seq<Query>, b: seq<Query>)
    requires CallsWellPlaced(a) && CallsWellPlaced(b)
    ensures CallsWellPlaced(a + b)
  {
    forall q | q in a + b
      ensures q.energy >= 0.0 && (q.entry ==> q.energy > 0.0)
    {
      assert q in a || q in b;
    }
  }

  /** Entry and exit stopping powers of a layer of the given density
      entered at eIn, with the oracle calls made. */
  datatype Probe = Probe(sIn: real, eOut: real, sOut: real, calls: seq<Query>)

  function ProbeLayer(oracle: Oracle, els: seq<Element>, density: real, eIn: real): (p: Probe)
    requires ValidOracle(oracle) && eIn > 0.0
    ensures p.sIn > 0.0 && p.sOut > 0.0
    ensures p.eOut == Max(0.0, eIn - density * p.sIn)
    ensures eIn - density * p.sIn < 0.0 ==> p.sOut == ClampedStopping
    ensures eIn - density * p.sIn >= 0.0 ==> p.sOut == oracle(els, p.eOut)
    ensures |p.calls| > 0 && p.calls[0] == Query(els, eIn, true)
    ensures CallsWellPlaced(p.calls)
  {
    var sIn := oracle(els, eIn);
    var eOut := eIn - density * sIn;
    if eOut < 0.0 then
      Probe(sIn, 0.0, ClampedStopping, [Query(els, eIn, true)])
    else
      Probe(sIn, eOut, oracle(els, eOut), [Query(els, eIn, true), Query(els, eOut, false)])
  }

  /** Mid-layer approximation: the average of entry and exit. */
  function Midpoint(p: Probe): real {
    (p.sIn + p.sOut) / 2.0
  }

  function RelDiff(a: real, b: real): real
    requires a > 0.0
  {
    Abs(a - b) / Max(Abs(a), Abs(b))
  }

  /** The probe's entry and exit agree within the tolerance. */
  predicate Settles(p: Probe)
    requires p.sIn > 0.0
  {
    RelDiff(p.sIn, p.sOut) <= Tolerance
  }

  /** 2^n as a real. */
  function Pow2(n: nat): (r: real)
    ensures r >= 1.0
  {
    if n == 0 then 1.0 else 2.0 * Pow2(n - 1)
  }

  /** d halved n times. */
  function Halved(d: real, n: nat): real
    decreases n
  {
    if n == 0 then d else Halved(d / 2.0, n - 1)
  }

  /** A layer of this density entered at eIn agrees within the tolerance
      at entry and exit, and gets the midpoint stopping power. */
  predicate SettledAt(oracle: Oracle, els: seq<Element>, eIn: real, density: real, stopping: real)
    requires ValidOracle(oracle) && eIn > 0.0
  {
    var p := ProbeLayer(oracle, els, density, eIn);
    Settles(p) && stopping == Midpoint(p)
  }

  /** Outcome of the halving loop: the final density, the stopping power
      assigned on convergence, the attempt counter and the oracle calls. */
  datatype Settled = Settled(density: real, stopping: real, ctr: nat, calls: seq<Query>)

  /** The halving loop for a layer the beam enters at eIn > 0. `fuel` bounds
      the number of halvings; the source has no bound. */
  function ConvergeLayer(oracle: Oracle, els: seq<Element>, density: real, eIn: real,
                         ctr: nat, fuel: nat): (r: Result<Settled>)
    requires ValidOracle(oracle) && eIn > 0.0
    ensures r.Err? ==> r.error == OutOfFuel
    ensures r.Ok? ==> ctr <= r.value.ctr <= ctr + fuel
    ensures r.Ok? ==> r.value.density == Halved(density, r.value.ctr - ctr)
    ensures r.Ok? ==> SettledAt(oracle, els, eIn, r.value.density, r.value.stopping)
    ensures r.Ok? ==> forall j :: 0 <= j < r.value.ctr - ctr ==>
              !Settles(ProbeLayer(oracle, els, Halved(density, j), eIn))
    ensures r.Ok? ==> CallsWellPlaced(r.value.calls)
    decreases fuel
  {
    var p := ProbeLayer(oracle, els, density, eIn);
    if !Settles(p) then
      if fuel == 0 then Err(OutOfFuel)
      else
        var rest :- ConvergeLayer(oracle, els, density / 2.0, eIn, ctr + 1, fuel - 1);
        CallsWellPlacedAppend(p.calls, rest.calls);
        Ok(rest.(calls := p.calls + rest.calls))
    else
      Ok(Settled(density, Midpoint(p), ctr, p.calls))
  }

  /** n halvings undo n doublings: the density halved n times, times 2^n,
      is the density. */
  lemma {:induction false} HalvedTimesPow2(d: real, n: nat)
    ensures Halved(d, n) * Pow2(n) == d
    decreases n
  {
    if n > 0 {
      HalvedTimesPow2(d / 2.0, n - 1);
      var h := Halved(d / 2.0, n - 1);
      var q := Pow2(n - 1);
      assert h * (2.0 * q) == 2.0 * (h * q);
    }
  }

  /** A layer that settles on the first probe keeps its density and counter. */
  lemma FirstProbeSettles(oracle: Oracle, els: seq<Element>, density: real, eIn: real, fuel: nat)
    requires ValidOracle(oracle) && eIn > 0.0
    requires Settles(ProbeLayer(oracle, els, density, eIn))
    ensures ConvergeLayer(oracle, els, density, eIn, 1, fuel)
            == Ok(Settled(density, Midpoint(ProbeLayer(oracle, els, density, eIn)), 1,
                          ProbeLayer(oracle, els, density, eIn).calls))
  {
  }

  // ---------------------------------------------------------------------
  // The Count rule

  /** Number of daughters for a parent whose loop ended with counter ctr.
      There is always at least one, and exactly one when the parent was
      never halved. */
  function CountFor(ctr: nat): (r: nat)
    ensures r >= 1
    ensures r == 1 <==> ctr <= 1
  {
    if ctr == 2 then 2
    else
      var sq := (ctr - 1) * (ctr - 1);
      assert ctr >= 3 ==> sq >= 2 * (ctr - 1) > 1;
      if sq > 1 then sq else 1
  }

  /** Count is never below the counter, and equals it exactly when the
      parent was halved at most once. */
  lemma CountCoversCtr(ctr: nat)
    requires ctr >= 1
    ensures CountFor(ctr) >= ctr
    ensures CountFor(ctr) == ctr <==> ctr <= 2
  {
    if ctr >= 3 {
      assert (ctr - 1) * (ctr - 1) >= 2 * (ctr - 1) > ctr - 1;
    }
  }

  lemma Pow2Small()
    ensures Pow2(2) == 4.0 && Pow2(3) == 8.0 && Pow2(4) == 16.0 && Pow2(5) == 32.0
  {
    assert Pow2(1) == 2.0;
  }

  lemma {:induction false} Pow2Outgrows(k: nat)
    requires k >= 5
    ensures Pow2(k) > (k * k) as real
  {
    if k == 5 {
      Pow2Small();
    } else {
      Pow2Outgrows(k - 1);
      SquareAtMostDoubles(k - 1);
    }
  }

  /** From 5 on, the next square is at most twice the current one. */
  lemma SquareAtMostDoubles(m: nat)
    requires m >= 5
    ensures ((m + 1) * (m + 1)) as real <= 2.0 * (m * m) as real
  {
    var sq := m * m;
    assert sq >= 5 * m;
    assert (m + 1) * (m + 1) == sq + 2 * m + 1;
  }

  /** The daughters of a parent halved ctr - 1 times add up to the parent's
      density only for ctr in {1, 2, 3, 5}: for 4 and from 6 on the Count
      rule does not match the halvings. */
  lemma CountMatchesHalvings(ctr: nat)
    requires ctr >= 1
    ensures CountFor(ctr) as real == Pow2(ctr - 1) <==> ctr == 1 || ctr == 2 || ctr == 3 || ctr == 5
  {
    Pow2Small();
    if ctr >= 6 {
      Pow2Outgrows(ctr - 1);
    }
  }

  // ---------------------------------------------------------------------
  // Daughters

  /** `a` and `b` agree layer by layer in everything but stopping power. */
  predicate SameShape(a: Target, b: Target) {
    |a| == |b| && forall i :: 0 <= i < |a| ==> a[i].arealDensity == b[i].arealDensity && a[i].elements == b[i].elements
  }

  lemma {:induction false} PrefixLossAgree(a: Target, b: Target, n: nat)
    requires n <= |a| && n <= |b|
    requires forall i :: 0 <= i < n ==> a[i] == b[i]
    ensures PrefixLoss(a, n) == PrefixLoss(b, n)
  {
    if n > 0 {
      PrefixLossAgree(a, b, n - 1);
    }
  }

  /** Stopping power a daughter at position j must carry: the midpoint of
      its probe at the energy left after all earlier daughters, or 0 when
      that energy is not positive or its parent was not reached. */
  function DaughterStopping(oracle: Oracle, energy: real, out: Target, j: nat, unreached: bool): real
    requires ValidOracle(oracle) && j < |out|
  {
    var eIn := energy - PrefixLoss(out, j);
    if eIn <= 0.0 || unreached then 0.0
    else Midpoint(ProbeLayer(oracle, out[j].elements, out[j].arealDensity, eIn))
  }

  /** One pass of the daughter loop: the daughter at pos gets its stopping
      power, with the oracle calls that took. Only that daughter changes.
      Its stopping power is zero exactly when the energy left after the
      daughters before it is not positive or its parent was not reached,
      and then the oracle is not asked; otherwise it is positive and comes
      from one probe that starts at that entry energy. */
  function FillOne(oracle: Oracle, energy: real, cur: Target, pos: nat, unreached: bool): (r: (Target, seq<Query>))
    requires ValidOracle(oracle) && pos < |cur|
    ensures r.0 == cur[pos := cur[pos].(stopping := DaughterStopping(oracle, energy, cur, pos, unreached))]
    ensures r.0[pos].stopping == 0.0 <==> energy - PrefixLoss(cur, pos) <= 0.0 || unreached
    ensures r.0[pos].stopping >= 0.0
    ensures r.1 == [] <==> energy - PrefixLoss(cur, pos) <= 0.0 || unreached
    ensures r.1 != [] ==> r.1[0] == Query(cur[pos].elements, energy - PrefixLoss(cur, pos), true)
    ensures CallsWellPlaced(r.1)
  {
    var eIn := energy - PrefixLoss(cur, pos);
    if eIn <= 0.0 || unreached then (cur[pos := cur[pos].(stopping := 0.0)], [])
    else
      var p := ProbeLayer(oracle, cur[pos].elements, cur[pos].arealDensity, eIn);
      (cur[pos := cur[pos].(stopping := Midpoint(p))], p.calls)
  }

  /** The daughter loop: daughters first + k .. first + count - 1, in order. */
  function AssignDaughters(oracle: Oracle, energy: real, out: Target, first: nat, k: nat, count: nat,
                           unreached: bool): (r: (Target, seq<Query>))
    requires ValidOracle(oracle) && first + count == |out| && k <= count
    ensures SameShape(r.0, out)
    ensures forall j :: 0 <= j < first + k ==> r.0[j] == out[j]
    ensures forall j :: first + k <= j < |out| ==> r.0[j].stopping == DaughterStopping(oracle, energy, r.0, j, unreached)
    ensures CallsWellPlaced(r.1)
    decreases count - k
  {
    if k == count then (out, [])
    else
      var pos := first + k;
      var step := FillOne(oracle, energy, out, pos, unreached);
      var rest := AssignDaughters(oracle, energy, step.0, first, k + 1, count, unreached);
      PrefixLossAgree(out, step.0, pos);
      PrefixLossAgree(step.0, rest.0, pos);
      CallsWellPlacedAppend(step.1, rest.1);
      (rest.0, step.1 + rest.1)
  }

  // ---------------------------------------------------------------------
  // The layer loop

  // AsWritten makes the stray zero write at position `index`; Corrected
  // makes it at the current parent's first daughter.

  /** State of the layer loop: the segmented stack, Count and ctr per
      parent so far, the running `index`, the sticky unreached flag, the
      number of daughters before the first unreached parent, and the
      oracle calls. */
  datatype SegState = SegState(
    out: Target,
    counts: seq<nat>,
    ctrs: seq<nat>,
    index: nat,
    unreached: bool,
    reachedDaughters: nat,
    calls: seq<Query>)

  const Start: SegState := SegState([], [], [], 0, false, 0, [])

  /** The write the source makes when the parent is unreached, before its
      daughter loop. */
  function ZeroWrite(variant: Variant, out: Target, index: nat, first: nat): (r: Result<Target>)
    requires first < |out|
    ensures variant == AsWritten ==> (r.Ok? <==> index < |out|)
    ensures variant == Corrected ==> r.Ok?
    ensures r.Err? ==> r.error == IndexOutOfRange
    ensures r.Ok? ==> SameShape(r.value, out)
    ensures r.Ok? && variant == Corrected ==> forall j :: 0 <= j < first ==> r.value[j] == out[j]
  {
    var pos := if variant == AsWritten then index else first;
    if pos < |out| then Ok(out[pos := out[pos].(stopping := 0.0)]) else Err(IndexOutOfRange)
  }

  /** Entry energy of the next parent: the energy left after every daughter
      so far (the first parent's subtraction is of 0). */
  function EntryEnergy(energy: real, out: Target): real {
    energy - PrefixLoss(out, |out|)
  }

  /** The halving loop for one parent. A parent the beam does not reach
      breaks out at once: counter 1, density and stopping power as they
      were, no oracle call. A reached parent ends halved ctr - 1 times with
      its entry and exit stopping powers within the tolerance and the
      midpoint assigned. */
  function SettleParent(oracle: Oracle, energy: real, s: SegState, parent: Layer, fuel: nat): (r: Result<Settled>)
    requires ValidOracle(oracle)
    ensures EntryEnergy(energy, s.out) <= 0.0 ==> r == Ok(Settled(parent.arealDensity, parent.stopping, 1, []))
    ensures r.Ok? && EntryEnergy(energy, s.out) > 0.0 ==>
              SettledAt(oracle, parent.elements, EntryEnergy(energy, s.out), r.value.density, r.value.stopping)
    ensures r.Ok? && EntryEnergy(energy, s.out) > 0.0 ==> forall j :: 0 <= j < r.value.ctr - 1 ==>
              !Settles(ProbeLayer(oracle, parent.elements, Halved(parent.arealDensity, j), EntryEnergy(energy, s.out)))
    ensures r.Ok? ==> r.value.ctr >= 1 && r.value.density == Halved(parent.arealDensity, r.value.ctr - 1)
    ensures r.Ok? ==> CallsWellPlaced(r.value.calls)
    ensures r.Err? ==> r.error == OutOfFuel
  {
    var eIn := EntryEnergy(energy, s.out);
    if eIn <= 0.0 then Ok(Settled(parent.arealDensity, parent.stopping, 1, []))
    else ConvergeLayer(oracle, parent.elements, parent.arealDensity, eIn, 1, fuel)
  }

  /** The deep copies appended for a parent, before the daughter loop:
      Count copies of the parent as the halving loop left it. */
  function Fresh(settled: Settled, parent: Layer): (r: Target)
    ensures |r| == CountFor(settled.ctr)
    ensures forall k :: 0 <= k < |r| ==> r[k] == Layer(settled.density, settled.stopping, parent.elements)
  {
    seq(CountFor(settled.ctr), _ => Layer(settled.density, settled.stopping, parent.elements))
  }

  function SegmentLayer(oracle: Oracle, energy: real, variant: Variant, s: SegState, parent: Layer,
                        fuel: nat): (r: Result<SegState>)
    requires ValidOracle(oracle)
    ensures r.Err? ==> r.error == OutOfFuel || (variant == AsWritten && r.error == IndexOutOfRange)
    ensures r.Ok? ==> |r.value.ctrs| == |s.ctrs| + 1
    ensures r.Ok? ==> r.value.unreached == (s.unreached || EntryEnergy(energy, s.out) <= 0.0)
  {
    var settled :- SettleParent(oracle, energy, s, parent, fuel);
    var unreached := s.unreached || EntryEnergy(energy, s.out) <= 0.0;
    var count := CountFor(settled.ctr);
    var index := s.index + settled.ctr;
    var first := |s.out|;
    var expanded := s.out + Fresh(settled, parent);
    var written :- if unreached then ZeroWrite(variant, expanded, index, first) else Ok(expanded);
    var filled := AssignDaughters(oracle, energy, written, first, 0, count, unreached);
    var reached := if !unreached then |filled.0| else if s.unreached then s.reachedDaughters else first;
    Ok(SegState(filled.0, s.counts + [count], s.ctrs + [settled.ctr], index, unreached, reached,
                s.calls + settled.calls + filled.1))
  }

  function SegmentFrom(oracle: Oracle, energy: real, variant: Variant, target: Target, i: nat,
                       s: SegState, fuel: nat): (r: Result<SegState>)
    requires ValidOracle(oracle) && i <= |target|
    ensures r.Err? ==> r.error == OutOfFuel || (variant == AsWritten && r.error == IndexOutOfRange)
    ensures r.Ok? ==> |r.value.ctrs| == |s.ctrs| + |target| - i
    ensures r.Ok? && s.unreached ==> r.value.unreached
    decreases |target| - i
  {
    if i == |target| then Ok(s)
    else
      var s' :- SegmentLayer(oracle, energy, variant, s, target[i], fuel);
      SegmentFrom(oracle, energy, variant, target, i + 1, s', fuel)
  }

  /** assign_stopping(target, energy), with at most `fuel` halvings per
      layer. Besides running out of fuel, only the as-written stray write
      can fail; a finished run has one counter per input layer. */
  function Segment(oracle: Oracle, target: Target, energy: real, variant: Variant, fuel: nat): (r: Result<SegState>)
    requires ValidOracle(oracle)
    ensures r.Err? ==> r.error == OutOfFuel || (variant == AsWritten && r.error == IndexOutOfRange)
    ensures r.Ok? ==> |r.value.ctrs| == |target|
  {
    SegmentFrom(oracle, energy, variant, target, 0, Start, fuel)
  }

  // ---------------------------------------------------------------------
  // What a finished segmentation looks like

  /** The daughters the Count rule makes of a parent whose loop ended with
      counter ctr: copies of the parent halved ctr - 1 times (stopping
      power aside). */
  function Copies(parent: Layer, ctr: nat): (r: Target)
    requires ctr >= 1
    ensures |r| == CountFor(ctr)
  {
    seq(CountFor(ctr), _ => Layer(Halved(parent.arealDensity, ctr - 1), 0.0, parent.elements))
  }

  /** All daughters in parent order. */
  function Expand(target: Target, ctrs: seq<nat>): Target
    requires |ctrs| == |target| && forall i :: 0 <= i < |ctrs| ==> ctrs[i] >= 1
  {
    if |target| == 0 then []
    else Expand(target[..|target| - 1], ctrs[..|ctrs| - 1]) + Copies(target[|target| - 1], ctrs[|ctrs| - 1])
  }

  /** Sum of naturals, added front to back. */
  function SumNat(s: seq<nat>): nat {
    if |s| == 0 then 0 else SumNat(s[..|s| - 1]) + s[|s| - 1]
  }

  /** Every daughter carries the stopping power of its own position, and
      the first unreached parent was met with no energy left. */
  ghost predicate Consistent(oracle: Oracle, energy: real, s: SegState)
    requires ValidOracle(oracle)
  {
    && s.reachedDaughters <= |s.out|
    && (forall j :: 0 <= j < |s.out| ==>
          s.out[j].stopping == DaughterStopping(oracle, energy, s.out, j, j >= s.reachedDaughters))
    && (s.unreached ==> energy - PrefixLoss(s.out, s.reachedDaughters) <= 0.0)
  }

  /** The counting part of the layer loop's invariant after i parents:
      one counter and one Count per parent, the stack the Count rule
      describes, and `index` the sum of the counters. */
  ghost predicate Bookkeeping(target: Target, i: nat, s: SegState) {
    && i <= |target| && |s.ctrs| == i && |s.counts| == i
    && (forall j :: 0 <= j < i ==> s.ctrs[j] >= 1 && s.counts[j] == CountFor(s.ctrs[j]))
    && |s.out| == SumNat(s.counts) && s.index == SumNat(s.ctrs)
    && SameShape(s.out, Expand(target[..i], s.ctrs))
    && s.reachedDaughters <= |s.out| && (!s.unreached ==> s.reachedDaughters == |s.out|)
  }

  /** The layer loop's invariant after i parents. */
  ghost predicate Invariant(oracle: Oracle, energy: real, variant: Variant, target: Target, i: nat, s: SegState)
    requires ValidOracle(oracle)
  {
    && Bookkeeping(target, i, s)
    && CallsWellPlaced(s.calls)
    && (variant == Corrected ==> Consistent(oracle, energy, s))
  }

  lemma SameShapeTrans(a: Target, b: Target, c: Target)
    requires SameShape(a, b) && SameShape(b, c)
    ensures SameShape(a, c)
  {
  }

  lemma SameShapeAppend(a: Target, b: Target, c: Target, d: Target)
    requires SameShape(a, b) && SameShape(c, d)
    ensures SameShape(a + c, b + d)
  {
    forall i | 0 <= i < |a + c|
      ensures (a + c)[i].arealDensity == (b + d)[i].arealDensity && (a + c)[i].elements == (b + d)[i].elements
    {
      if i >= |a| {
        assert (a + c)[i] == c[i - |a|] && (b + d)[i] == d[i - |a|];
      }
    }
  }

  /** The daughters of the current parent, before and after their
      stopping powers are filled in, have the shape Copies describes. */
  lemma ExpandStep(target: Target, i: nat, ctrs: seq<nat>, ctr: nat)
    requires i < |target| && |ctrs| == i && ctr >= 1 && forall j :: 0 <= j < i ==> ctrs[j] >= 1
    ensures Expand(target[..i + 1], ctrs + [ctr]) == Expand(target[..i], ctrs) + Copies(target[i], ctr)
  {
    assert target[..i + 1][..i] == target[..i];
    assert (ctrs + [ctr])[..i] == ctrs;
  }

  lemma SumNatStep(s: seq<nat>, x: nat)
    ensures SumNat(s + [x]) == SumNat(s) + x
  {
    assert (s + [x])[..|s|] == s;
  }

  /** The pieces SegmentLayer is built from, named. */
  lemma SegmentLayerParts(oracle: Oracle, energy: real, variant: Variant, s: SegState, parent: Layer, fuel: nat)
    returns (settled: Settled, unreached: bool, written: Target, filled: (Target, seq<Query>))
    requires ValidOracle(oracle)
    requires SegmentLayer(oracle, energy, variant, s, parent, fuel).Ok?
    ensures SettleParent(oracle, energy, s, parent, fuel) == Ok(settled)
    ensures unreached == (s.unreached || EntryEnergy(energy, s.out) <= 0.0)
    ensures unreached ==> ZeroWrite(variant, s.out + Fresh(settled, parent), s.index + settled.ctr, |s.out|) == Ok(written)
    ensures !unreached ==> written == s.out + Fresh(settled, parent)
    ensures filled == AssignDaughters(oracle, energy, written, |s.out|, 0, CountFor(settled.ctr), unreached)
    ensures SegmentLayer(oracle, energy, variant, s, parent, fuel).value
            == SegState(filled.0, s.counts + [CountFor(settled.ctr)], s.ctrs + [settled.ctr], s.index + settled.ctr,
                        unreached,
                        if !unreached then |filled.0| else if s.unreached then s.reachedDaughters else |s.out|,
                        s.calls + settled.calls + filled.1)
  {
    settled := SettleParent(oracle, energy, s, parent, fuel).value;
    unreached := s.unreached || EntryEnergy(energy, s.out) <= 0.0;
    var expanded := s.out + Fresh(settled, parent);
    written := if unreached then ZeroWrite(variant, expanded, s.index + settled.ctr, |s.out|).value else expanded;
    filled := AssignDaughters(oracle, energy, written, |s.out|, 0, CountFor(settled.ctr), unreached);
  }

  /** What the named pieces of SegmentLayer satisfy: the parent's halving,
      and the shape of the stack before the daughter loop. */
  lemma SegmentLayerFacts(oracle: Oracle, energy: real, variant: Variant, s: SegState, parent: Layer, fuel: nat,
                          settled: Settled, unreached: bool, written: Target)
    requires ValidOracle(oracle)
    requires SettleParent(oracle, energy, s, parent, fuel) == Ok(settled)
    requires unreached ==> ZeroWrite(variant, s.out + Fresh(settled, parent), s.index + settled.ctr, |s.out|) == Ok(written)
    requires !unreached ==> written == s.out + Fresh(settled, parent)
    ensures settled.ctr >= 1 && settled.density == Halved(parent.arealDensity, settled.ctr - 1)
    ensures CallsWellPlaced(settled.calls)
    ensures SameShape(written, s.out + Fresh(settled, parent))
    ensures |written| == |s.out| + CountFor(settled.ctr)
  {
    var sp := SettleParent(oracle, energy, s, parent, fuel);
    assert sp.Ok? && sp.value == settled;
    var expanded := s.out + Fresh(settled, parent);
    if unreached {
      var w := ZeroWrite(variant, expanded, s.index + settled.ctr, |s.out|);
      assert w.Ok? && w.value == written;
    }
  }

  /** The Corrected write leaves the earlier daughters alone. */
  lemma CorrectedWriteKeepsPrefix(s: SegState, extra: Target, index: nat, written: Target)
    requires |extra| > 0
    requires ZeroWrite(Corrected, s.out + extra, index, |s.out|) == Ok(written)
    ensures forall j :: 0 <= j < |s.out| ==> written[j] == s.out[j]
  {
    var expanded := s.out + extra;
    forall j | 0 <= j < |s.out|
      ensures written[j] == s.out[j]
    {
      assert expanded[j] == s.out[j];
    }
  }

  /** One parent preserves the invariant. */
  lemma SegmentLayerPreserves(oracle: Oracle, energy: real, variant: Variant, target: Target, i: nat,
                              s: SegState, fuel: nat)
    requires ValidOracle(oracle) && i < |target|
    requires Invariant(oracle, energy, variant, target, i, s)
    ensures var r := SegmentLayer(oracle, energy, variant, s, target[i], fuel);
            r.Ok? ==> Invariant(oracle, energy, variant, target, i + 1, r.value)
  {
    var r := SegmentLayer(oracle, energy, variant, s, target[i], fuel);
    if r.Ok? {
      var settled, unreached, written, filled := SegmentLayerParts(oracle, energy, variant, s, target[i], fuel);
      SegmentLayerFacts(oracle, energy, variant, s, target[i], fuel, settled, unreached, written);
      StepInvariant(oracle, energy, variant, target, i, s, settled, unreached, written, filled);
    }
  }

  /** The invariant after one parent, from the named pieces of its step. */
  lemma StepInvariant(oracle: Oracle, energy: real, variant: Variant, target: Target, i: nat, s: SegState,
                      settled: Settled, unreached: bool, written: Target, filled: (Target, seq<Query>))
    requires ValidOracle(oracle) && i < |target|
    requires Invariant(oracle, energy, variant, target, i, s)
    requires settled.ctr >= 1 && settled.density == Halved(target[i].arealDensity, settled.ctr - 1)
    requires CallsWellPlaced(settled.calls)
    requires unreached == (s.unreached || EntryEnergy(energy, s.out) <= 0.0)
    requires unreached ==> ZeroWrite(variant, s.out + Fresh(settled, target[i]), s.index + settled.ctr, |s.out|) == Ok(written)
    requires !unreached ==> written == s.out + Fresh(settled, target[i])
    requires SameShape(written, s.out + Fresh(settled, target[i]))
    requires filled == AssignDaughters(oracle, energy, written, |s.out|, 0, CountFor(settled.ctr), unreached)
    ensures Invariant(oracle, energy, variant, target, i + 1,
                      SegState(filled.0, s.counts + [CountFor(settled.ctr)], s.ctrs + [settled.ctr],
                               s.index + settled.ctr, unreached,
                               if !unreached then |filled.0| else if s.unreached then s.reachedDaughters else |s.out|,
                               s.calls + settled.calls + filled.1))
  {
    var parent := target[i];
    var s' := SegState(filled.0, s.counts + [CountFor(settled.ctr)], s.ctrs + [settled.ctr],
                       s.index + settled.ctr, unreached,
                       if !unreached then |filled.0| else if s.unreached then s.reachedDaughters else |s.out|,
                       s.calls + settled.calls + filled.1);
    var expanded := s.out + Fresh(settled, parent);
    BookkeepingStep(target, i, s, settled, expanded, written, s');
    CallsWellPlacedAppend(s.calls, settled.calls);
    CallsWellPlacedAppend(s.calls + settled.calls, filled.1);
    if variant == Corrected {
      assert expanded[..|s.out|] == s.out;
      if unreached {
        CorrectedWriteKeepsPrefix(s, Fresh(settled, parent), s.index + settled.ctr, written);
      }
      CorrectedLayerConsistent(oracle, energy, s, s', |s.out|, expanded, written, filled.0, unreached);
    }
  }

  /** One parent keeps the counting part of the invariant. */
  lemma BookkeepingStep(target: Target, i: nat, s: SegState, settled: Settled, expanded: Target,
                        written: Target, s': SegState)
    requires i < |target| && Bookkeeping(target, i, s)
    requires settled.ctr >= 1 && settled.density == Halved(target[i].arealDensity, settled.ctr - 1)
    requires expanded == s.out + Fresh(settled, target[i])
    requires SameShape(written, expanded) && SameShape(s'.out, written)
    requires s'.counts == s.counts + [CountFor(settled.ctr)] && s'.ctrs == s.ctrs + [settled.ctr]
    requires s'.index == s.index + settled.ctr
    requires s'.reachedDaughters == if !s'.unreached then |s'.out| else if s.unreached then s.reachedDaughters else |s.out|
    requires s.unreached ==> s'.unreached
    ensures Bookkeeping(target, i + 1, s')
  {
    ShapeStep(target, i, s, settled, expanded, written, s'.out);
    SumNatStep(s.counts, CountFor(settled.ctr));
    SumNatStep(s.ctrs, settled.ctr);
    CountsStep(s.ctrs, s.counts, settled.ctr);
  }

  /** Appending a parent's counter keeps every counter at least 1 and every
      Count its counter's. */
  lemma CountsStep(ctrs: seq<nat>, counts: seq<nat>, ctr: nat)
    requires |ctrs| == |counts| && ctr >= 1
    requires forall j :: 0 <= j < |ctrs| ==> ctrs[j] >= 1 && counts[j] == CountFor(ctrs[j])
    ensures var c', n' := ctrs + [ctr], counts + [CountFor(ctr)];
            forall j :: 0 <= j < |c'| ==> c'[j] >= 1 && n'[j] == CountFor(c'[j])
  {
  }

  lemma ShapeStep(target: Target, i: nat, s: SegState, settled: Settled, expanded: Target, written: Target,
                  filled: Target)
    requires i < |target| && |s.ctrs| == i && forall j :: 0 <= j < i ==> s.ctrs[j] >= 1
    requires settled.ctr >= 1 && settled.density == Halved(target[i].arealDensity, settled.ctr - 1)
    requires SameShape(s.out, Expand(target[..i], s.ctrs))
    requires expanded == s.out + Fresh(settled, target[i])
    requires SameShape(written, expanded) && SameShape(filled, written)
    ensures SameShape(filled, Expand(target[..i + 1], s.ctrs + [settled.ctr]))
  {
    var parent := target[i];
    assert SameShape(Fresh(settled, parent), Copies(parent, settled.ctr));
    SameShapeAppend(s.out, Expand(target[..i], s.ctrs), Fresh(settled, parent), Copies(parent, settled.ctr));
    ExpandStep(target, i, s.ctrs, settled.ctr);
    SameShapeTrans(filled, written, expanded);
    SameShapeTrans(filled, expanded, Expand(target[..i + 1], s.ctrs + [settled.ctr]));
  }

  /** The Corrected variant keeps every earlier daughter and fills in the
      new ones at their own positions. */
  lemma CorrectedLayerConsistent(oracle: Oracle, energy: real, s: SegState, s': SegState, first: nat,
                                 expanded: Target, written: Target, filled: Target, unreached: bool)
    requires ValidOracle(oracle)
    requires Consistent(oracle, energy, s) && (!s.unreached ==> s.reachedDaughters == |s.out|)
    requires first == |s.out| < |expanded| && expanded[..first] == s.out
    requires |written| == |expanded| && forall j :: 0 <= j < first ==> written[j] == expanded[j]
    requires |filled| == |written| && forall j :: 0 <= j < first ==> filled[j] == written[j]
    requires forall j :: first <= j < |filled| ==> filled[j].stopping == DaughterStopping(oracle, energy, filled, j, unreached)
    requires unreached == (s.unreached || EntryEnergy(energy, s.out) <= 0.0)
    requires s'.out == filled && s'.unreached == unreached
    requires s'.reachedDaughters == if !unreached then |filled| else if s.unreached then s.reachedDaughters else first
    ensures Consistent(oracle, energy, s')
  {
    forall j | 0 <= j < first
      ensures filled[j] == s.out[j]
    {
      assert expanded[j] == expanded[..first][j];
    }
    forall j | 0 <= j < |filled|
      ensures filled[j].stopping == DaughterStopping(oracle, energy, filled, j, j >= s'.reachedDaughters)
    {
      if j < first {
        EarlierDaughterKept(oracle, energy, s, filled, j);
      }
    }
    if unreached {
      PrefixLossAgree(filled, s.out, s'.reachedDaughters);
    }
  }

  /** An earlier daughter keeps the stopping power of its position when the
      daughters before it are unchanged. */
  lemma EarlierDaughterKept(oracle: Oracle, energy: real, s: SegState, filled: Target, j: nat)
    requires ValidOracle(oracle) && Consistent(oracle, energy, s)
    requires j < |s.out| <= |filled| && forall k :: 0 <= k < |s.out| ==> filled[k] == s.out[k]
    ensures filled[j].stopping == DaughterStopping(oracle, energy, filled, j, j >= s.reachedDaughters)
  {
    PrefixLossAgree(filled, s.out, j);
    assert s.out[j].stopping == DaughterStopping(oracle, energy, s.out, j, j >= s.reachedDaughters);
  }

  lemma {:induction false} SegmentFromPreserves(oracle: Oracle, energy: real, variant: Variant, target: Target,
                                                i: nat, s: SegState, fuel: nat)
    requires ValidOracle(oracle) && i <= |target|
    requires Invariant(oracle, energy, variant, target, i, s)
    requires SegmentFrom(oracle, energy, variant, target, i, s, fuel).Ok?
    ensures Invariant(oracle, energy, variant, target, |target|, SegmentFrom(oracle, energy, variant, target, i, s, fuel).value)
    decreases |target| - i
  {
    if i < |target| {
      SegmentFromStep(oracle, energy, variant, target, i, s, fuel);
      var r1 := SegmentLayer(oracle, energy, variant, s, target[i], fuel).value;
      SegmentLayerPreserves(oracle, energy, variant, target, i, s, fuel);
      SegmentFromPreserves(oracle, energy, variant, target, i + 1, r1, fuel);
    }
  }

  /** What assign_stopping returns: one counter and one Count per parent,
      exactly the sum of the Counts many daughters, copies of their parents
      in parent order with the halved density, and oracle calls only at
      non-negative energies, entry calls only at positive ones. */
  lemma SegmentShape(oracle: Oracle, target: Target, energy: real, variant: Variant, fuel: nat)
    requires ValidOracle(oracle)
    ensures var r := Segment(oracle, target, energy, variant, fuel);
            r.Ok? ==>
              && |r.value.ctrs| == |target| && |r.value.counts| == |target|
              && (forall i :: 0 <= i < |target| ==> r.value.ctrs[i] >= 1 && r.value.counts[i] == CountFor(r.value.ctrs[i]))
              && |r.value.out| == SumNat(r.value.counts)
              && SameShape(r.value.out, Expand(target, r.value.ctrs))
              && CallsWellPlaced(r.value.calls)
  {
    if Segment(oracle, target, energy, variant, fuel).Ok? {
      assert target[..0] == [];
      SegmentFromPreserves(oracle, energy, variant, target, 0, Start, fuel);
      assert target[..|target|] == target;
    }
  }

  /** In the Corrected variant every daughter's stopping power is the
      midpoint of its probe at the energy left after all earlier daughters,
      or 0 when that energy is spent or its parent was unreached; parents
      count as unreached from the first one met with no energy left. */
  lemma CorrectedStoppings(oracle: Oracle, target: Target, energy: real, fuel: nat)
    requires ValidOracle(oracle)
    ensures var r := Segment(oracle, target, energy, Corrected, fuel);
            r.Ok? ==>
              && r.value.reachedDaughters <= |r.value.out|
              && (forall j :: 0 <= j < |r.value.out| ==>
                    r.value.out[j].stopping
                    == DaughterStopping(oracle, energy, r.value.out, j, j >= r.value.reachedDaughters))
              && (r.value.unreached ==> energy - PrefixLoss(r.value.out, r.value.reachedDaughters) <= 0.0)
              && (!r.value.unreached ==> r.value.reachedDaughters == |r.value.out|)
  {
    if Segment(oracle, target, energy, Corrected, fuel).Ok? {
      assert target[..0] == [];
      SegmentFromPreserves(oracle, energy, Corrected, target, 0, Start, fuel);
    }
  }

  // ---------------------------------------------------------------------
  // The stray write at `index`

  /** While every parent is reached the two variants run identically. */
  lemma SegmentLayerVariantsAgree(oracle: Oracle, energy: real, s: SegState, parent: Layer, fuel: nat)
    requires ValidOracle(oracle) && !s.unreached && EntryEnergy(energy, s.out) > 0.0
    ensures SegmentLayer(oracle, energy, AsWritten, s, parent, fuel) == SegmentLayer(oracle, energy, Corrected, s, parent, fuel)
  {
  }

  lemma {:induction false} VariantsAgreeFrom(oracle: Oracle, energy: real, target: Target, i: nat, s: SegState, fuel: nat)
    requires ValidOracle(oracle) && i <= |target| && !s.unreached
    ensures var c := SegmentFrom(oracle, energy, Corrected, target, i, s, fuel);
            c.Ok? && !c.value.unreached ==> SegmentFrom(oracle, energy, AsWritten, target, i, s, fuel) == c
    decreases |target| - i
  {
    if i < |target| {
      var c1 := SegmentLayer(oracle, energy, Corrected, s, target[i], fuel);
      if c1.Ok? && !c1.value.unreached {
        SegmentLayerVariantsAgree(oracle, energy, s, target[i], fuel);
        VariantsAgreeFrom(oracle, energy, target, i + 1, c1.value, fuel);
      }
    }
  }

  /** When the beam reaches every layer, the stray write never happens and
      the source's behaviour is the corrected one. */
  lemma VariantsAgreeWhenAllReached(oracle: Oracle, target: Target, energy: real, fuel: nat)
    requires ValidOracle(oracle)
    ensures var c := Segment(oracle, target, energy, Corrected, fuel);
            c.Ok? && !c.value.unreached ==> Segment(oracle, target, energy, AsWritten, fuel) == c
  {
    VariantsAgreeFrom(oracle, energy, target, 0, Start, fuel);
  }

  /** If the first unreached parent is met while `index` still equals the
      number of daughters, the source's write is out of range. */
  lemma SegmentLayerIndexError(oracle: Oracle, energy: real, s: SegState, parent: Layer, fuel: nat)
    requires ValidOracle(oracle) && s.index == |s.out|
    requires SettleParent(oracle, energy, s, parent, fuel).Ok? && SettleParent(oracle, energy, s, parent, fuel).value.ctr <= 2
    requires s.unreached || EntryEnergy(energy, s.out) <= 0.0
    ensures SegmentLayer(oracle, energy, AsWritten, s, parent, fuel) == Err(IndexOutOfRange)
  {
    var settled := SettleParent(oracle, energy, s, parent, fuel).value;
    CountCoversCtr(settled.ctr);
    assert |s.out + Fresh(settled, parent)| == s.index + settled.ctr;
  }

  /** With the counter at most 2, Count equals it, so `index` keeps pace
      with the number of daughters. */
  lemma SegmentLayerIndexInStep(oracle: Oracle, energy: real, variant: Variant, s: SegState, parent: Layer, fuel: nat)
    requires ValidOracle(oracle) && s.index == |s.out|
    requires SegmentLayer(oracle, energy, variant, s, parent, fuel).Ok?
    requires SegmentLayer(oracle, energy, variant, s, parent, fuel).value.ctrs[|s.ctrs|] <= 2
    ensures var r := SegmentLayer(oracle, energy, variant, s, parent, fuel).value;
            r.index == |r.out|
  {
    var settled, unreached, written, filled := SegmentLayerParts(oracle, energy, variant, s, parent, fuel);
    SegmentLayerFacts(oracle, energy, variant, s, parent, fuel, settled, unreached, written);
    CountCoversCtr(settled.ctr);
  }

  /** The counter SegmentLayer records is the one its parent settled with. */
  lemma SegmentLayerCtr(oracle: Oracle, energy: real, variant: Variant, s: SegState, parent: Layer, fuel: nat)
    requires ValidOracle(oracle)
    requires SegmentLayer(oracle, energy, variant, s, parent, fuel).Ok?
    ensures SettleParent(oracle, energy, s, parent, fuel).Ok?
    ensures SegmentLayer(oracle, energy, variant, s, parent, fuel).value.ctrs[|s.ctrs|]
            == SettleParent(oracle, energy, s, parent, fuel).value.ctr
  {
    var settled, unreached, written, filled := SegmentLayerParts(oracle, energy, variant, s, parent, fuel);
  }

  /** No parent from position k on was halved more than once. */
  predicate ShallowFrom(ctrs: seq<nat>, k: nat) {
    forall j :: k <= j < |ctrs| ==> ctrs[j] <= 2
  }

  /** A parent's step keeps the counters recorded so far. */
  lemma SegmentLayerKeepsCtrs(oracle: Oracle, energy: real, variant: Variant, s: SegState, parent: Layer, fuel: nat)
    requires ValidOracle(oracle)
    requires SegmentLayer(oracle, energy, variant, s, parent, fuel).Ok?
    ensures SegmentLayer(oracle, energy, variant, s, parent, fuel).value.ctrs[..|s.ctrs|] == s.ctrs
  {
    var settled, unreached, written, filled := SegmentLayerParts(oracle, energy, variant, s, parent, fuel);
    assert (s.ctrs + [settled.ctr])[..|s.ctrs|] == s.ctrs;
  }

  /** The rest of the layer loop keeps the counters recorded so far. */
  lemma {:induction false} SegmentFromKeepsCtrs(oracle: Oracle, energy: real, variant: Variant, target: Target, i: nat,
                                                s: SegState, fuel: nat)
    requires ValidOracle(oracle) && i <= |target|
    requires SegmentFrom(oracle, energy, variant, target, i, s, fuel).Ok?
    ensures SegmentFrom(oracle, energy, variant, target, i, s, fuel).value.ctrs[..|s.ctrs|] == s.ctrs
    decreases |target| - i
  {
    if i < |target| {
      SegmentFromStep(oracle, energy, variant, target, i, s, fuel);
      var s1 := SegmentLayer(oracle, energy, variant, s, target[i], fuel).value;
      SegmentLayerKeepsCtrs(oracle, energy, variant, s, target[i], fuel);
      SegmentFromKeepsCtrs(oracle, energy, variant, target, i + 1, s1, fuel);
      var r := SegmentFrom(oracle, energy, variant, target, i, s, fuel).value;
      assert r.ctrs[..|s.ctrs|] == r.ctrs[..|s1.ctrs|][..|s.ctrs|];
    }
  }

  /** The first step of IndexErrorFrom: the parent's counter is shallow. */
  lemma FirstCtrShallow(oracle: Oracle, energy: real, target: Target, i: nat, s: SegState, fuel: nat)
    requires ValidOracle(oracle) && i < |target|
    requires SegmentFrom(oracle, energy, Corrected, target, i, s, fuel).Ok?
    requires ShallowFrom(SegmentFrom(oracle, energy, Corrected, target, i, s, fuel).value.ctrs, |s.ctrs|)
    ensures SegmentLayer(oracle, energy, Corrected, s, target[i], fuel).Ok?
    ensures var s1 := SegmentLayer(oracle, energy, Corrected, s, target[i], fuel).value;
            && SegmentFrom(oracle, energy, Corrected, target, i, s, fuel)
               == SegmentFrom(oracle, energy, Corrected, target, i + 1, s1, fuel)
            && s1.ctrs[|s.ctrs|] <= 2
            && ShallowFrom(SegmentFrom(oracle, energy, Corrected, target, i, s, fuel).value.ctrs, |s1.ctrs|)
  {
    var c := SegmentFrom(oracle, energy, Corrected, target, i, s, fuel);
    var s1 := SegmentLayer(oracle, energy, Corrected, s, target[i], fuel).value;
    SegmentFromKeepsCtrs(oracle, energy, Corrected, target, i + 1, s1, fuel);
    assert c.value.ctrs[..|s1.ctrs|] == s1.ctrs;
    assert s1.ctrs[|s.ctrs|] == c.value.ctrs[..|s1.ctrs|][|s.ctrs|];
  }

  lemma SegmentFromStep(oracle: Oracle, energy: real, variant: Variant, target: Target, i: nat, s: SegState, fuel: nat)
    requires ValidOracle(oracle) && i < |target|
    ensures var r1 := SegmentLayer(oracle, energy, variant, s, target[i], fuel);
            SegmentFrom(oracle, energy, variant, target, i, s, fuel)
            == if r1.Err? then Err(r1.error) else SegmentFrom(oracle, energy, variant, target, i + 1, r1.value, fuel)
  {
  }

  /** A reached parent with a shallow counter: the source takes the same
      step as the corrected model and `index` keeps pace. */
  lemma ReachedStep(oracle: Oracle, energy: real, target: Target, i: nat, s: SegState, fuel: nat)
    requires ValidOracle(oracle) && i < |target| && !s.unreached && s.index == |s.out|
    requires SegmentLayer(oracle, energy, Corrected, s, target[i], fuel).Ok?
    requires var s1 := SegmentLayer(oracle, energy, Corrected, s, target[i], fuel).value;
             !s1.unreached && s1.ctrs[|s.ctrs|] <= 2
    ensures var s1 := SegmentLayer(oracle, energy, Corrected, s, target[i], fuel).value;
            && s1.index == |s1.out|
            && SegmentFrom(oracle, energy, AsWritten, target, i, s, fuel)
               == SegmentFrom(oracle, energy, AsWritten, target, i + 1, s1, fuel)
  {
    SegmentLayerVariantsAgree(oracle, energy, s, target[i], fuel);
    SegmentLayerIndexInStep(oracle, energy, Corrected, s, target[i], fuel);
    SegmentFromStep(oracle, energy, AsWritten, target, i, s, fuel);
  }

  lemma {:induction false} IndexErrorFrom(oracle: Oracle, energy: real, target: Target, i: nat, s: SegState, fuel: nat)
    requires ValidOracle(oracle) && i <= |target| && !s.unreached && s.index == |s.out|
    requires var c := SegmentFrom(oracle, energy, Corrected, target, i, s, fuel);
             c.Ok? && c.value.unreached && ShallowFrom(c.value.ctrs, |s.ctrs|)
    ensures SegmentFrom(oracle, energy, AsWritten, target, i, s, fuel) == Err(IndexOutOfRange)
    decreases |target| - i
  {
    IndexErrorStep(oracle, energy, target, i, s, fuel);
    var s1 := SegmentLayer(oracle, energy, Corrected, s, target[i], fuel).value;
    if !s1.unreached {
      IndexErrorFrom(oracle, energy, target, i + 1, s1, fuel);
    }
  }

  /** One parent of IndexErrorFrom: either it is the unreached one and the
      source fails on it, or both variants step past it alike. */
  lemma IndexErrorStep(oracle: Oracle, energy: real, target: Target, i: nat, s: SegState, fuel: nat)
    requires ValidOracle(oracle) && i < |target| && !s.unreached && s.index == |s.out|
    requires var c := SegmentFrom(oracle, energy, Corrected, target, i, s, fuel);
             c.Ok? && c.value.unreached && ShallowFrom(c.value.ctrs, |s.ctrs|)
    ensures SegmentLayer(oracle, energy, Corrected, s, target[i], fuel).Ok?
    ensures var s1 := SegmentLayer(oracle, energy, Corrected, s, target[i], fuel).value;
            var c := SegmentFrom(oracle, energy, Corrected, target, i, s, fuel);
            if s1.unreached then SegmentFrom(oracle, energy, AsWritten, target, i, s, fuel) == Err(IndexOutOfRange)
            else
              && s1.index == |s1.out|
              && SegmentFrom(oracle, energy, AsWritten, target, i, s, fuel)
                 == SegmentFrom(oracle, energy, AsWritten, target, i + 1, s1, fuel)
              && c == SegmentFrom(oracle, energy, Corrected, target, i + 1, s1, fuel)
              && ShallowFrom(c.value.ctrs, |s1.ctrs|)
  {
    FirstCtrShallow(oracle, energy, target, i, s, fuel);
    var s1 := SegmentLayer(oracle, energy, Corrected, s, target[i], fuel).value;
    SegmentLayerCtr(oracle, energy, Corrected, s, target[i], fuel);
    if s1.unreached {
      SegmentLayerIndexError(oracle, energy, s, target[i], fuel);
      SegmentFromStep(oracle, energy, AsWritten, target, i, s, fuel);
    } else {
      ReachedStep(oracle, energy, target, i, s, fuel);
    }
  }

  /** The source fails with IndexError whenever some parent is unreached
      and no parent before it was halved more than once: then `index`
      equals the number of daughters when the write happens. */
  lemma AsWrittenIndexError(oracle: Oracle, target: Target, energy: real, fuel: nat)
    requires ValidOracle(oracle)
    ensures var c := Segment(oracle, target, energy, Corrected, fuel);
            c.Ok? && c.value.unreached && ShallowFrom(c.value.ctrs, 0)
            ==> Segment(oracle, target, energy, AsWritten, fuel) == Err(IndexOutOfRange)
  {
    var c := Segment(oracle, target, energy, Corrected, fuel);
    if c.Ok? && c.value.unreached && ShallowFrom(c.value.ctrs, 0) {
      IndexErrorFrom(oracle, energy, target, 0, Start, fuel);
    }
  }

  /** Two layers, a stopping power of 1 keV/TFU at every energy, and 6500
      keV: the first layer takes the whole energy, the second is unreached,
      and the source writes one past the end of its two daughters. */
  lemma IndexErrorWitness()
    ensures var oracle: Oracle := (els: seq<Element>, e: real) => 1.0;
            var target := [Layer(6500.0, 0.01, [Element(14, 100.0)]), Layer(1000.0, 0.01, [Element(14, 100.0)])];
            && Segment(oracle, target, 6500.0, AsWritten, 0) == Err(IndexOutOfRange)
            && Segment(oracle, target, 6500.0, Corrected, 0).Ok?
            && Segment(oracle, target, 6500.0, Corrected, 0).value.out
               == [Layer(6500.0, 1.0, [Element(14, 100.0)]), Layer(1000.0, 0.0, [Element(14, 100.0)])]
  {
    var oracle: Oracle := (els: seq<Element>, e: real) => 1.0;
    var si := [Element(14, 100.0)];
    var target := [Layer(6500.0, 0.01, si), Layer(1000.0, 0.01, si)];
    var p := ProbeLayer(oracle, si, 6500.0, 6500.0);
    assert p.sIn == 1.0 && p.sOut == 1.0;
    assert Settles(p);
    var c1 := SegmentLayer(oracle, 6500.0, Corrected, Start, target[0], 0);
    assert ConvergeLayer(oracle, si, 6500.0, 6500.0, 1, 0) == Ok(Settled(6500.0, 1.0, 1, p.calls));
    var settled, unreached, written, filled := SegmentLayerParts(oracle, 6500.0, Corrected, Start, target[0], 0);
    assert written == [Layer(6500.0, 1.0, si)];
    assert filled.0 == [Layer(6500.0, 1.0, si)];
    assert c1.value.out == [Layer(6500.0, 1.0, si)] && c1.value.index == 1 && !c1.value.unreached;
    var c2 := SegmentLayer(oracle, 6500.0, Corrected, c1.value, target[1], 0);
    assert EntryEnergy(6500.0, c1.value.out) == 0.0;
    assert c2.Ok? && c2.value.out == [Layer(6500.0, 1.0, si), Layer(1000.0, 0.0, si)];
    SegmentLayerVariantsAgree(oracle, 6500.0, Start, target[0], 0);
    SegmentLayerIndexError(oracle, 6500.0, c1.value, target[1], 0);
  }

  // ---------------------------------------------------------------------
  // A layer thin enough from the start

  /** A reached parent that settles on its first probe becomes exactly one
      daughter: the parent itself, with the midpoint of that probe as its
      stopping power. */
  lemma FirstProbeOneDaughter(oracle: Oracle, energy: real, variant: Variant, s: SegState, parent: Layer, fuel: nat)
    requires ValidOracle(oracle) && !s.unreached && EntryEnergy(energy, s.out) > 0.0
    requires Settles(ProbeLayer(oracle, parent.elements, parent.arealDensity, EntryEnergy(energy, s.out)))
    ensures var r := SegmentLayer(oracle, energy, variant, s, parent, fuel);
            var p := ProbeLayer(oracle, parent.elements, parent.arealDensity, EntryEnergy(energy, s.out));
            && r.Ok?
            && r.value.out == s.out + [parent.(stopping := Midpoint(p))]
            && r.value.ctrs == s.ctrs + [1] && r.value.counts == s.counts + [1]
  {
    var eIn := EntryEnergy(energy, s.out);
    var p := ProbeLayer(oracle, parent.elements, parent.arealDensity, eIn);
    FirstProbeSettles(oracle, parent.elements, parent.arealDensity, eIn, fuel);
    var settled, unreached, written, filled := SegmentLayerParts(oracle, energy, variant, s, parent, fuel);
    assert settled == Settled(parent.arealDensity, Midpoint(p), 1, p.calls);
    var first := |s.out|;
    assert written == s.out + [Layer(parent.arealDensity, Midpoint(p), parent.elements)];
    PrefixLossAgree(filled.0, s.out, first);
    assert filled.0[first].stopping == Midpoint(p);
    assert filled.0 == s.out + [parent.(stopping := Midpoint(p))];
  }

  // ---------------------------------------------------------------------
  // The loops of assign_stopping

  /** `calls` followed by the calls of r, when r succeeds. */
  function Preceded(calls: seq<Query>, r: Result<Settled>): Result<Settled> {
    if r.Err? then r else Ok(r.value.(calls := calls + r.value.calls))
  }

  lemma PrecededNothing(r: Result<Settled>)
    ensures Preceded([], r) == r
  {
    if r.Ok? {
      assert [] + r.value.calls == r.value.calls;
    }
  }

  /** One failed probe: the loop's outcome is the rest of the loop's,
      after the probe's calls. */
  lemma ConvergeStep(oracle: Oracle, els: seq<Element>, d: real, eIn: real, ctr: nat, left: nat, calls: seq<Query>)
    requires ValidOracle(oracle) && eIn > 0.0 && left > 0
    requires !Settles(ProbeLayer(oracle, els, d, eIn))
    ensures Preceded(calls, ConvergeLayer(oracle, els, d, eIn, ctr, left))
            == Preceded(calls + ProbeLayer(oracle, els, d, eIn).calls,
                        ConvergeLayer(oracle, els, d / 2.0, eIn, ctr + 1, left - 1))
  {
    var p := ProbeLayer(oracle, els, d, eIn);
    var rest := ConvergeLayer(oracle, els, d / 2.0, eIn, ctr + 1, left - 1);
    if rest.Ok? {
      assert calls + (p.calls + rest.value.calls) == (calls + p.calls) + rest.value.calls;
    }
  }

  /** The loop's last probe: it settles, or the halvings are used up. */
  lemma ConvergeDone(oracle: Oracle, els: seq<Element>, d: real, eIn: real, ctr: nat, left: nat, calls: seq<Query>)
    requires ValidOracle(oracle) && eIn > 0.0
    requires Settles(ProbeLayer(oracle, els, d, eIn)) || left == 0
    ensures var p := ProbeLayer(oracle, els, d, eIn);
            Preceded(calls, ConvergeLayer(oracle, els, d, eIn, ctr, left))
            == if Settles(p) then Ok(Settled(d, Midpoint(p), ctr, calls + p.calls)) else Err(OutOfFuel)
  {
  }

  /** The while loop of mod2.py:112-142 for a layer the beam enters. */
  method Halve(oracle: Oracle, els: seq<Element>, density: real, eIn: real, fuel: nat) returns (r: Result<Settled>)
    requires ValidOracle(oracle) && eIn > 0.0
    ensures r == ConvergeLayer(oracle, els, density, eIn, 1, fuel)
  {
    var d := density;
    var ctr := 1;
    var left := fuel;
    var calls: seq<Query> := [];
    PrecededNothing(ConvergeLayer(oracle, els, density, eIn, 1, fuel));
    var p := ProbeLayer(oracle, els, d, eIn);
    while !Settles(p) && left > 0
      invariant ctr >= 1 && p == ProbeLayer(oracle, els, d, eIn)
      invariant ConvergeLayer(oracle, els, density, eIn, 1, fuel)
                == Preceded(calls, ConvergeLayer(oracle, els, d, eIn, ctr, left))
      decreases left
    {
      ConvergeStep(oracle, els, d, eIn, ctr, left, calls);
      calls := calls + p.calls;
      d := d / 2.0;
      ctr := ctr + 1;
      left := left - 1;
      p := ProbeLayer(oracle, els, d, eIn);
    }
    ConvergeDone(oracle, els, d, eIn, ctr, left, calls);
    if Settles(p) {
      r := Ok(Settled(d, Midpoint(p), ctr, calls + p.calls));
    } else {
      r := Err(OutOfFuel);
    }
  }

  /** One daughter: the loop's outcome is the rest of the loop's, after
      the daughter's calls. */
  lemma AssignStep(oracle: Oracle, energy: real, cur: Target, first: nat, k: nat, count: nat, unreached: bool,
                   calls: seq<Query>)
    requires ValidOracle(oracle) && first + count == |cur| && k < count
    ensures var step := FillOne(oracle, energy, cur, first + k, unreached);
            var here := AssignDaughters(oracle, energy, cur, first, k, count, unreached);
            var rest := AssignDaughters(oracle, energy, step.0, first, k + 1, count, unreached);
            (here.0, calls + here.1) == (rest.0, (calls + step.1) + rest.1)
  {
    var step := FillOne(oracle, energy, cur, first + k, unreached);
    var rest := AssignDaughters(oracle, energy, step.0, first, k + 1, count, unreached);
    assert calls + (step.1 + rest.1) == (calls + step.1) + rest.1;
  }

  /** The daughter loop of mod2.py:162-190. */
  method FillDaughters(oracle: Oracle, energy: real, out: Target, first: nat, count: nat, unreached: bool)
    returns (r: (Target, seq<Query>))
    requires ValidOracle(oracle) && first + count == |out|
    ensures r == AssignDaughters(oracle, energy, out, first, 0, count, unreached)
  {
    var cur := out;
    var k := 0;
    var calls: seq<Query> := [];
    assert [] + AssignDaughters(oracle, energy, out, first, 0, count, unreached).1
           == AssignDaughters(oracle, energy, out, first, 0, count, unreached).1;
    while k < count
      invariant k <= count && |cur| == |out|
      invariant var whole := AssignDaughters(oracle, energy, out, first, 0, count, unreached);
                var here := AssignDaughters(oracle, energy, cur, first, k, count, unreached);
                whole == (here.0, calls + here.1)
      decreases count - k
    {
      AssignStep(oracle, energy, cur, first, k, count, unreached, calls);
      var step := FillOne(oracle, energy, cur, first + k, unreached);
      cur := step.0;
      calls := calls + step.1;
      k := k + 1;
    }
    assert calls + [] == calls;
    r := (cur, calls);
  }

  /** One pass of the layer loop. */
  method LayerStep(oracle: Oracle, energy: real, variant: Variant, s: SegState, parent: Layer, fuel: nat)
    returns (r: Result<SegState>)
    requires ValidOracle(oracle)
    ensures r == SegmentLayer(oracle, energy, variant, s, parent, fuel)
  {
    var eIn := EntryEnergy(energy, s.out);
    var settledR: Result<Settled>;
    if eIn <= 0.0 {
      settledR := Ok(Settled(parent.arealDensity, parent.stopping, 1, []));
    } else {
      settledR := Halve(oracle, parent.elements, parent.arealDensity, eIn, fuel);
    }
    if settledR.Err? {
      return Err(settledR.error);
    }
    var settled := settledR.value;
    var unreached := s.unreached || eIn <= 0.0;
    var count := CountFor(settled.ctr);
    var index := s.index + settled.ctr;
    var first := |s.out|;
    var written := s.out + Fresh(settled, parent);
    if unreached {
      var w := ZeroWrite(variant, written, index, first);
      if w.Err? {
        return Err(w.error);
      }
      written := w.value;
    }
    var filled := FillDaughters(oracle, energy, written, first, count, unreached);
    var reached := if !unreached then |filled.0| else if s.unreached then s.reachedDaughters else first;
    r := Ok(SegState(filled.0, s.counts + [count], s.ctrs + [settled.ctr], index, unreached, reached,
                     s.calls + settled.calls + filled.1));
  }

  /** assign_stopping as loops: the layer loop over the parents, each pass
      running the halving loop and then the daughter loop. */
  method AssignStopping(oracle: Oracle, target: Target, energy: real, variant: Variant, fuel: nat)
    returns (r: Result<SegState>)
    requires ValidOracle(oracle)
    ensures r == Segment(oracle, target, energy, variant, fuel)
  {
    var i := 0;
    var s := Start;
    r := Ok(Start);
    ghost var goal := Segment(oracle, target, energy, variant, fuel);
    while i < |target| && r.Ok?
      invariant i <= |target|
      invariant r.Ok? ==> r == Ok(s) && SegmentFrom(oracle, energy, variant, target, i, s, fuel) == goal
      invariant r.Err? ==> r == goal
      decreases |target| - i
    {
      SegmentFromStep(oracle, energy, variant, target, i, s, fuel);
      r := LayerStep(oracle, energy, variant, s, target[i], fuel);
      if r.Ok? {
        s := r.value;
      }
      i := i + 1;
    }
  }
}
