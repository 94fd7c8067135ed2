/** The target description shared by every stage of the NRP simulation:
    elements, layers and targets, the error outcomes the Python code can
    raise, and the running sums (areal density, energy loss) that the
    stages compute over a layer stack. */
module Layers {

  /** One element of a layer: atomic number and atomic percent. */
  datatype Element = Element(z: int, percentAt: real)

  /** One layer: areal density in TFU, stopping power in keV/TFU, and its
      elements, front of the list first. */
  datatype Layer = Layer(arealDensity: real, stopping: real, elements: seq<Element>)

  /** Layer 0 is struck first by the beam. */
  type Target = seq<Layer>

  /** The exceptions the modelled code can end in. */
  datatype Error =
    | ZeroDivision       // float division by zero (ZeroDivisionError, or a non-finite numpy value)
    | IndexOutOfRange    // IndexError
    | Unbound            // a local read before any assignment (NameError)
    | OutOfFuel          // the halving loop ran past its bound; the source loops on
    | Mismatch           // arrays of different lengths handed to an interpolator (ValueError)
    | NotANumber         // float() of an entry that is not a number (ValueError)

  datatype Result<+T> = Ok(value: T) | Err(error: Error) {
    predicate IsFailure() { Err? }

    function PropagateFailure<U>(): Result<U>
      requires Err?
    {
      Err(error)
    }

    function Extract(): T
      requires Ok?
    {
      value
    }
  }

  /** Where the source departs from its evident intent, AsWritten follows
      the code and Corrected the intended behaviour. */
  datatype Variant = AsWritten | Corrected

  /** Energy lost crossing the whole layer, in keV. */
  function Loss(l: Layer): real {
    l.stopping * l.arealDensity
  }

  /** Summed areal density of layers 0..n-1. */
  function PrefixDensity(t: Target, n: nat): real
    requires n <= |t|
  {
    if n == 0 then 0.0 else PrefixDensity(t, n - 1) + t[n - 1].arealDensity
  }

  function TotalDensity(t: Target): real {
    PrefixDensity(t, |t|)
  }

  /** Summed energy loss of layers 0..n-1. */
  function PrefixLoss(t: Target, n: nat): real
    requires n <= |t|
  {
    if n == 0 then 0.0 else PrefixLoss(t, n - 1) + Loss(t[n - 1])
  }

  /** Summed areal density of layers lo..hi-1, added up front to back. */
  function RangeDensity(t: Target, lo: nat, hi: nat): (r: real)
    requires lo <= hi <= |t|
    ensures r == PrefixDensity(t, hi) - PrefixDensity(t, lo)
    decreases hi - lo
  {
    if lo == hi then 0.0 else t[lo].arealDensity + RangeDensity(t, lo + 1, hi)
  }

  /** The target is not empty and its front layer's stopping power is
      nonzero: the broadening divides by it for every energy that falls
      outside the target. Layers the beam never reaches may carry a zero
      stopping power. */
  predicate FrontDivisible(t: Target) {
    |t| > 0 && t[0].stopping != 0.0
  }

  /** A target as the editor and the segmentation leave it when the beam
      reaches every layer: positive densities and positive stopping powers. */
  predicate Physical(t: Target) {
    |t| > 0 && forall i :: 0 <= i < |t| ==> t[i].arealDensity > 0.0 && t[i].stopping > 0.0
  }

  lemma {:induction false} PrefixDensityMonotone(t: Target, a: nat, b: nat)
    requires a <= b <= |t|
    requires forall i :: 0 <= i < |t| ==> t[i].arealDensity >= 0.0
    ensures PrefixDensity(t, a) <= PrefixDensity(t, b)
    decreases b - a
  {
    if a < b {
      PrefixDensityMonotone(t, a, b - 1);
    }
  }

  lemma {:induction false} PrefixLossMonotone(t: Target, a: nat, b: nat)
    requires a <= b <= |t|
    requires forall i :: 0 <= i < |t| ==> Loss(t[i]) >= 0.0
    ensures PrefixLoss(t, a) <= PrefixLoss(t, b)
    decreases b - a
  {
    if a < b {
      PrefixLossMonotone(t, a, b - 1);
    }
  }

  lemma PhysicalLossPositive(t: Target, i: nat)
    requires Physical(t) && i < |t|
    ensures Loss(t[i]) > 0.0
  {
    assert t[i].stopping > 0.0 && t[i].arealDensity > 0.0;
  }

  /** Sum of a sequence of reals, front to back. */
  function Sum(s: seq<real>): real {
    if |s| == 0 then 0.0 else s[0] + Sum(s[1..])
  }

  lemma {:induction false} SumAppend(a: seq<real>, b: seq<real>)
    ensures Sum(a + b) == Sum(a) + Sum(b)
  {
    if |a| == 0 {
      assert a + b == b;
    } else {
      assert (a + b)[1..] == a[1..] + b;
      SumAppend(a[1..], b);
    }
  }

  lemma {:induction false} SumNonNegative(s: seq<real>)
    requires forall i :: 0 <= i < |s| ==> s[i] >= 0.0
    ensures Sum(s) >= 0.0
  {
    if |s| > 0 {
      SumNonNegative(s[1..]);
    }
  }

  /** Largest entry, as Python's max() on a non-empty list. */
  function SeqMax(s: seq<real>): (m: real)
    requires |s| > 0
    ensures forall i :: 0 <= i < |s| ==> s[i] <= m
    ensures exists i :: 0 <= i < |s| && s[i] == m
  {
    if |s| == 1 then s[0]
    else
      var rest := SeqMax(s[1..]);
      assert forall i :: 1 <= i < |s| ==> s[i] == s[1..][i - 1];
      if s[0] >= rest then s[0] else rest
  }

  /** Smallest entry, as Python's min() on a non-empty list. */
  function SeqMin(s: seq<real>): (m: real)
    requires |s| > 0
    ensures forall i :: 0 <= i < |s| ==> m <= s[i]
    ensures exists i :: 0 <= i < |s| && s[i] == m
  {
    if |s| == 1 then s[0]
    else
      var rest := SeqMin(s[1..]);
      assert forall i :: 1 <= i < |s| ==> s[i] == s[1..][i - 1];
      if s[0] <= rest then s[0] else rest
  }

  function Abs(x: real): real {
    if x < 0.0 then -x else x
  }

  function Min(a: real, b: real): real {
    if a <= b then a else b
  }

  function Max(a: real, b: real): real {
    if a >= b then a else b
  }
}
